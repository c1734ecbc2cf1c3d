/** The `yaml-merge` command of `yamlpath/commands/yaml_merge.py`: the
    argument check, and the order in which `main` loads the files, hands
    them to the merger and turns failures into exit statuses. The merger
    and the loader are outside the model and appear as given functions. */
module YamlMerge {
  import opened Wrappers
  import Text
  import opened Nodes

  // ---------------------------------------------------------------------
  // The world outside the command
  // ---------------------------------------------------------------------

  /** What `get_yaml_data` hands back: None (the load failed or the
      document was empty), one document, or a stream of documents, any of
      which may be empty. */
  datatype Loaded = NoData | OneDocument(doc: Node) | DocumentStream(docs: seq<Option<Node>>)

  /** What `merge_with` is given: a document, or a whole stream. */
  datatype MergeInput = Doc(node: Node) | Stream(docs: seq<Option<Node>>)

  /** How `merge_with` ends: normally, with MergeException, or with
      YAMLPathException. */
  datatype MergeStatus = Merged | MergeFailed | PathFailed

  /** The status of one merge and the merger's document afterwards (which
      a failing merge may have changed in part). */
  datatype MergeStep = MergeStep(status: MergeStatus, data: Node)

  /** The command line as far as the modelled code reads it; an unset
      `--config` or `--output` is the empty string. */
  datatype MergeArgs = MergeArgs(files: seq<string>, nostdin: bool, config: string, output: string,
                                 quiet: bool, verbose: bool, debug: bool)

  /** `sys.stdin.isatty()`, `isfile`, `isfile and access(R_OK)`, `exists`,
      the loader (given the name and `allow_multidoc`), and the merger. */
  datatype MergeEnv = MergeEnv(stdinIsTty: bool,
                               isFile: string -> bool,
                               readable: string -> bool,
                               pathExists: string -> bool,
                               load: (string, bool) -> Loaded,
                               merge: (Node, MergeInput) -> MergeStep)

  // ---------------------------------------------------------------------
  // validateargs
  // ---------------------------------------------------------------------

  /** `name.strip() == '-'`: the name stands for standard input. */
  predicate IsPseudo(name: string)
  {
    Text.Strip(name) == "-"
  }

  /** How many names stand for standard input. */
  function PseudoCount(files: seq<string>): nat
  {
    if |files| == 0 then 0
    else PseudoCount(files[..|files| - 1]) + (if IsPseudo(files[|files| - 1]) then 1 else 0)
  }

  /** The checks of `validateargs`. */
  predicate ArgsValid(args: MergeArgs, env: MergeEnv)
  {
    var n := |args.files|;
    && !(n == 0 || (n == 1 && (env.stdinIsTty || IsPseudo(args.files[0]) || args.nostdin)))
    && PseudoCount(args.files) <= 1
    && !(args.config != "" && !env.readable(args.config))
    && !(args.output != "" && env.pathExists(args.output))
  }

  /** The arguments after `validateargs`: without `--output` the document
      goes to standard output, so everything else is muted. */
  function Forced(args: MergeArgs): (r: MergeArgs)
    ensures args.output == "" ==> r.quiet && !r.verbose && !r.debug
    ensures args.output != "" ==> r == args
    ensures r.files == args.files && r.nostdin == args.nostdin && r.config == args.config && r.output == args.output
  {
    if args.output != "" then args else args.(quiet := true, verbose := false, debug := false)
  }

  /** The loop of `validateargs` counting the names that stand for
      standard input. */
  method CountPseudo(files: seq<string>) returns (pseudofileCount: nat)
    ensures pseudofileCount == PseudoCount(files)
  {
    pseudofileCount := 0;
    for i := 0 to |files|
      invariant pseudofileCount == PseudoCount(files[..i])
    {
      assert files[..i + 1][..i] == files[..i];
      if IsPseudo(files[i]) {
        pseudofileCount := pseudofileCount + 1;
      }
    }
    assert files[..|files|] == files;
  }

  /** `validateargs(args, log)`: whether it found an error (and so exits
      1), and the arguments as it leaves them. */
  method ValidateArgs(args: MergeArgs, env: MergeEnv) returns (hasErrors: bool, result: MergeArgs)
    ensures hasErrors == !ArgsValid(args, env)
    ensures result == Forced(args)
  {
    hasErrors := false;
    result := args;
    var inputFileCount := |args.files|;
    if inputFileCount == 0
       || (inputFileCount == 1 && (env.stdinIsTty || IsPseudo(args.files[0]) || args.nostdin))
    {
      hasErrors := true;
    }
    var pseudofileCount := CountPseudo(args.files);
    if pseudofileCount > 1 {
      hasErrors := true;
    }
    if args.config != "" && !env.readable(args.config) {
      hasErrors := true;
    }
    if args.output != "" {
      if env.pathExists(args.output) {
        hasErrors := true;
      }
    } else {
      result := result.(quiet := true, verbose := false, debug := false);
    }
  }

  /** A name standing for standard input makes the count positive. */
  lemma {:induction false} PseudoCountPositive(files: seq<string>, i: nat)
    requires i < |files| && IsPseudo(files[i])
    ensures PseudoCount(files) >= 1
    decreases |files|
  {
    if i < |files| - 1 {
      PseudoCountPositive(files[..|files| - 1], i);
    }
  }

  /** More than one name stands for standard input exactly when two
      different positions do. */
  lemma {:induction false} PseudoCountTwo(files: seq<string>)
    ensures PseudoCount(files) > 1 <==>
              exists i, j :: 0 <= i < j < |files| && IsPseudo(files[i]) && IsPseudo(files[j])
    decreases |files|
  {
    if |files| > 0 {
      var init := files[..|files| - 1];
      var last := |files| - 1;
      PseudoCountTwo(init);
      if exists i, j :: 0 <= i < j < |files| && IsPseudo(files[i]) && IsPseudo(files[j]) {
        var i, j :| 0 <= i < j < |files| && IsPseudo(files[i]) && IsPseudo(files[j]);
        if j == last {
          PseudoCountPositive(init, i);
        } else {
          assert IsPseudo(init[i]) && IsPseudo(init[j]);
        }
      }
      if PseudoCount(files) > 1 {
        if IsPseudo(files[last]) {
          if PseudoCount(init) == 0 {
            assert false;
          }
          PseudoWitnessExists(init);
          var i :| 0 <= i < |init| && IsPseudo(init[i]);
          assert IsPseudo(files[i]) && IsPseudo(files[last]);
        } else {
          var i, j :| 0 <= i < j < |init| && IsPseudo(init[i]) && IsPseudo(init[j]);
          assert IsPseudo(files[i]) && IsPseudo(files[j]);
        }
      }
    }
  }

  /** A position of a name standing for standard input, when there is one. */
  lemma {:induction false} PseudoWitnessExists(files: seq<string>)
    requires PseudoCount(files) >= 1
    ensures exists i :: 0 <= i < |files| && IsPseudo(files[i])
    decreases |files|
  {
    if !IsPseudo(files[|files| - 1]) {
      PseudoWitnessExists(files[..|files| - 1]);
      var i :| 0 <= i < |files| - 1 && IsPseudo(files[..|files| - 1][i]);
      assert IsPseudo(files[i]);
    }
  }

  /** The input-count rule: no file at all, or a single file when standard
      input is a terminal, the file is `-` or `--nostdin` is set, is an error. */
  lemma InputCountRule(args: MergeArgs, env: MergeEnv)
    ensures |args.files| == 0 ==> !ArgsValid(args, env)
    ensures (|args.files| == 1 && (env.stdinIsTty || IsPseudo(args.files[0]) || args.nostdin))
            ==> !ArgsValid(args, env)
  {
  }

  /** At most one of the files may be `-`, explicit or with white space. */
  lemma OnePseudoFileRule(args: MergeArgs, env: MergeEnv, i: nat, j: nat)
    requires i < j < |args.files| && IsPseudo(args.files[i]) && IsPseudo(args.files[j])
    ensures !ArgsValid(args, env)
  {
    PseudoCountTwo(args.files);
  }

  // ---------------------------------------------------------------------
  // process_rhs and process_multidoc
  // ---------------------------------------------------------------------

  /** The status a failing merge maps to; 0 for a merge that succeeded. */
  function StatusCode(status: MergeStatus, onMergeError: int, onPathError: int): int
  {
    match status
    case Merged => 0
    case MergeFailed => onMergeError
    case PathFailed => onPathError
  }

  /** The exit state and the merger's document after a step. */
  datatype Outcome = Outcome(code: int, data: Node)

  /** `process_rhs(merger, rhs_yaml, rhs_file)` on a merger holding `data`.
      The test for standard input here compares the name with `-` as it
      is, without stripping it. */
  function RhsOutcome(env: MergeEnv, data: Node, rhsFile: string): Outcome
  {
    if rhsFile != "-" && !env.isFile(rhsFile) then Outcome(2, data)
    else match env.load(rhsFile, true)
      case NoData => Outcome(3, data)
      case OneDocument(d) =>
        var step := env.merge(data, Doc(d));
        Outcome(StatusCode(step.status, 4, 5), step.data)
      case DocumentStream(ds) =>
        var step := env.merge(data, Stream(ds));
        Outcome(StatusCode(step.status, 4, 5), step.data)
  }

  /** `process_rhs` yields 0 or one of its four failure codes: 2 without
      loading anything, 3 without merging anything. */
  lemma RhsCodes(env: MergeEnv, data: Node, rhsFile: string)
    ensures var r := RhsOutcome(env, data, rhsFile);
            && (r.code == 0 || 2 <= r.code <= 5)
            && (r.code == 2 <==> rhsFile != "-" && !env.isFile(rhsFile))
            && (r.code == 2 || r.code == 3 ==> r.data == data)
            && (r.code == 3 <==> (rhsFile == "-" || env.isFile(rhsFile)) && env.load(rhsFile, true).NoData?)
  {
  }

  /** The documents of a stream from index `i` on merged one by one into
      the state `st`; an empty document is skipped, and a failure records
      its code and merging goes on. */
  function MultidocOutcome(env: MergeEnv, docs: seq<Option<Node>>, i: nat, st: Outcome): Outcome
    decreases |docs| - i
  {
    if i >= |docs| then st
    else match docs[i]
      case None => MultidocOutcome(env, docs, i + 1, st)
      case Some(d) =>
        var step := env.merge(st.data, Doc(d));
        var code := if step.status == Merged then st.code else StatusCode(step.status, 6, 7);
        MultidocOutcome(env, docs, i + 1, Outcome(code, step.data))
  }

  /** The statuses of the merges a stream causes, one per non-empty
      document from index `i` on, each merge seeing the previous one's
      document. */
  function MergeStatuses(env: MergeEnv, docs: seq<Option<Node>>, i: nat, data: Node): seq<MergeStatus>
    decreases |docs| - i
  {
    if i >= |docs| then []
    else match docs[i]
      case None => MergeStatuses(env, docs, i + 1, data)
      case Some(d) =>
        var step := env.merge(data, Doc(d));
        [step.status] + MergeStatuses(env, docs, i + 1, step.data)
  }

  /** The number of non-empty documents from index `i` on. */
  function Present(docs: seq<Option<Node>>, i: nat): nat
    decreases |docs| - i
  {
    if i >= |docs| then 0 else (if docs[i].Some? then 1 else 0) + Present(docs, i + 1)
  }

  /** `process_multidoc` merges every non-empty document: one merge per
      document, a failure stopping nothing. */
  lemma {:induction false} MultidocMergesAll(env: MergeEnv, docs: seq<Option<Node>>, i: nat, data: Node)
    ensures |MergeStatuses(env, docs, i, data)| == Present(docs, i)
    decreases |docs| - i
  {
    if i < |docs| {
      match docs[i]
      case None =>
        MultidocMergesAll(env, docs, i + 1, data);
      case Some(d) =>
        MultidocMergesAll(env, docs, i + 1, env.merge(data, Doc(d)).data);
    }
  }

  /** No merge in a list of statuses failed. */
  predicate NoFailure(ss: seq<MergeStatus>)
  {
    MergeFailed !in ss && PathFailed !in ss
  }

  /** When every merge of a stream succeeds, `process_multidoc` leaves
      the state it was given. */
  lemma {:induction false} MultidocNoFailure(env: MergeEnv, docs: seq<Option<Node>>, i: nat, st: Outcome)
    requires NoFailure(MergeStatuses(env, docs, i, st.data))
    ensures MultidocOutcome(env, docs, i, st).code == st.code
    decreases |docs| - i
  {
    if i < |docs| {
      match docs[i]
      case None =>
        MultidocNoFailure(env, docs, i + 1, st);
      case Some(d) =>
        var step := env.merge(st.data, Doc(d));
        var rest := MergeStatuses(env, docs, i + 1, step.data);
        assert MergeStatuses(env, docs, i, st.data) == [step.status] + rest;
        MultidocNoFailure(env, docs, i + 1, Outcome(st.code, step.data));
    }
  }

  /** The status `process_multidoc` returns is that of the last merge that
      failed: 6 for a merge error, 7 for a path error. */
  lemma {:induction false} MultidocLastFailure(env: MergeEnv, docs: seq<Option<Node>>, i: nat, st: Outcome, k: nat)
    requires var ss := MergeStatuses(env, docs, i, st.data);
             k < |ss| && ss[k] != Merged && NoFailure(ss[k + 1..])
    ensures MultidocOutcome(env, docs, i, st).code == StatusCode(MergeStatuses(env, docs, i, st.data)[k], 6, 7)
    decreases |docs| - i
  {
    match docs[i]
    case None =>
      MultidocLastFailure(env, docs, i + 1, st, k);
    case Some(d) =>
      var step := env.merge(st.data, Doc(d));
      var code := if step.status == Merged then st.code else StatusCode(step.status, 6, 7);
      var ss := MergeStatuses(env, docs, i, st.data);
      var rest := MergeStatuses(env, docs, i + 1, step.data);
      assert ss == [step.status] + rest;
      assert ss[1..] == rest;
      if k > 0 {
        assert rest[k - 1..] == ss[k..];
        assert rest[k..] == ss[k + 1..];
        MultidocLastFailure(env, docs, i + 1, Outcome(code, step.data), k - 1);
      } else {
        MultidocNoFailure(env, docs, i + 1, Outcome(code, step.data));
      }
  }

  /** `process_multidoc` returns 0, 6 or 7, and 0 exactly when no merge failed. */
  lemma {:induction false} MultidocCodes(env: MergeEnv, docs: seq<Option<Node>>, i: nat, st: Outcome)
    requires st.code == 0 || st.code == 6 || st.code == 7
    ensures var r := MultidocOutcome(env, docs, i, st);
            && (r.code == 0 || r.code == 6 || r.code == 7)
            && (r.code == 0 <==> st.code == 0 && NoFailure(MergeStatuses(env, docs, i, st.data)))
    decreases |docs| - i
  {
    if i < |docs| {
      match docs[i]
      case None =>
        MultidocCodes(env, docs, i + 1, st);
      case Some(d) =>
        var step := env.merge(st.data, Doc(d));
        var code := if step.status == Merged then st.code else StatusCode(step.status, 6, 7);
        MultidocCodes(env, docs, i + 1, Outcome(code, step.data));
        var rest := MergeStatuses(env, docs, i + 1, step.data);
        assert MergeStatuses(env, docs, i, st.data) == [step.status] + rest;
    }
  }

  /** The merger, holding the prime document that every merge changes. */
  class Merger {
    var data: Node

    constructor (lhsData: Node)
      ensures data == lhsData
    {
      data := lhsData;
    }

    /** `merger.merge_with(rhs)`, with its exception as a status. */
    method MergeWith(env: MergeEnv, rhs: MergeInput) returns (status: MergeStatus)
      modifies this
      ensures status == env.merge(old(data), rhs).status
      ensures data == env.merge(old(data), rhs).data
    {
      var step := env.merge(data, rhs);
      data := step.data;
      status := step.status;
    }
  }

  /** `process_rhs(merger, rhs_yaml, rhs_file)` */
  method ProcessRhs(merger: Merger, env: MergeEnv, rhsFile: string) returns (exitState: int)
    modifies merger
    ensures Outcome(exitState, merger.data) == RhsOutcome(env, old(merger.data), rhsFile)
  {
    if rhsFile != "-" && !env.isFile(rhsFile) {
      return 2;
    }
    var rhsData := env.load(rhsFile, true);
    if rhsData.NoData? {
      return 3;
    }
    var input := if rhsData.OneDocument? then Doc(rhsData.doc) else Stream(rhsData.docs);
    exitState := 0;
    var status := merger.MergeWith(env, input);
    if status == MergeFailed {
      exitState := 4;
    } else if status == PathFailed {
      exitState := 5;
    }
  }

  /** `process_multidoc(merger, docs)`, given the documents `main` has not
      taken yet. */
  method ProcessMultidoc(merger: Merger, env: MergeEnv, docs: seq<Option<Node>>) returns (exitState: int)
    modifies merger
    ensures Outcome(exitState, merger.data) == MultidocOutcome(env, docs, 0, Outcome(0, old(merger.data)))
  {
    exitState := 0;
    var i := 0;
    while i < |docs|
      invariant i <= |docs|
      invariant MultidocOutcome(env, docs, i, Outcome(exitState, merger.data))
                == MultidocOutcome(env, docs, 0, Outcome(0, old(merger.data)))
      decreases |docs| - i
    {
      var doc := docs[i];
      i := i + 1;
      if doc.None? {
        continue;
      }
      var status := merger.MergeWith(env, Doc(doc.value));
      if status == MergeFailed {
        exitState := 6;
      } else if status == PathFailed {
        exitState := 7;
      }
    }
  }

  // ---------------------------------------------------------------------
  // main
  // ---------------------------------------------------------------------

  /** The state of the file loop of `main`. */
  datatype LoopState = LoopState(exit: int, data: Node, visited: seq<string>, consumedStdin: bool)

  /** The files from index `i` on, each handed to `process_rhs` in turn
      until one gives a non-zero state. */
  function RhsLoop(env: MergeEnv, files: seq<string>, i: nat, st: LoopState): LoopState
    decreases |files| - i
  {
    if i >= |files| then st
    else
      var r := RhsOutcome(env, st.data, files[i]);
      var st' := LoopState(st.exit, r.data, st.visited + [files[i]], st.consumedStdin || IsPseudo(files[i]));
      if r.code != 0 then st'.(exit := r.code) else RhsLoop(env, files, i + 1, st')
  }

  /** The result of a run: the exit status, the files handed to
      `process_rhs` in order (the implicit `-` last), whether standard
      input was merged as the implicit last source, and the document
      written out, if any. */
  datatype MergeRun = MergeRun(exit: int, visited: seq<string>, stdinDrained: bool, output: Option<Node>)

  /** Everything after the prime document is known: its extra documents,
      the other files, the waiting standard input, and the output. */
  function AfterPrime(args: MergeArgs, env: MergeEnv, lhs: Node, extra: seq<Option<Node>>, consumed: bool): MergeRun
    requires |args.files| >= 1
  {
    var multi := MultidocOutcome(env, extra, 0, Outcome(0, lhs));
    if multi.code != 0 then MergeRun(multi.code, [], false, None)
    else
      var loop := RhsLoop(env, args.files, 1, LoopState(0, multi.data, [], consumed));
      var drain := loop.exit == 0 && !loop.consumedStdin && !args.nostdin && !env.stdinIsTty;
      var last := if drain then RhsOutcome(env, loop.data, "-") else Outcome(loop.exit, loop.data);
      MergeRun(last.code, loop.visited + (if drain then ["-"] else []), drain,
               if last.code == 0 then Some(last.data) else None)
  }

  /** The prime document `main` starts from and the documents of its
      stream still to be merged; None when the prime file yields no first
      document (`log.critical` then ends the run with status 1). */
  function PrimeDocuments(loaded: Loaded): Option<(Node, seq<Option<Node>>)>
  {
    match loaded
    case NoData => None
    case OneDocument(d) => Some((d, []))
    case DocumentStream(ds) => if |ds| == 0 || ds[0].None? then None else Some((ds[0].value, ds[1..]))
  }

  /** `main()`: validation, the prime, the other files, standard input, output. */
  function MainRun(args: MergeArgs, env: MergeEnv): MergeRun
  {
    if !ArgsValid(args, env) then MergeRun(1, [], false, None)
    else match PrimeDocuments(env.load(args.files[0], false))
      case None => MergeRun(1, [], false, None)
      case Some((lhs, extra)) => AfterPrime(args, env, lhs, extra, IsPseudo(args.files[0]))
  }

  /** The file loop of `main`: every file after the prime in order, until
      `process_rhs` gives a non-zero state. */
  method ProcessRhsFiles(merger: Merger, env: MergeEnv, files: seq<string>, consumed: bool)
    returns (exitState: int, visited: seq<string>, consumedStdin: bool)
    modifies merger
    ensures LoopState(exitState, merger.data, visited, consumedStdin)
            == RhsLoop(env, files, 1, LoopState(0, old(merger.data), [], consumed))
  {
    exitState := 0;
    visited := [];
    consumedStdin := consumed;
    var i := 1;
    while i < |files|
      invariant exitState == 0
      invariant RhsLoop(env, files, i, LoopState(0, merger.data, visited, consumedStdin))
                == RhsLoop(env, files, 1, LoopState(0, old(merger.data), [], consumed))
      decreases |files| - i
    {
      var rhsFile := files[i];
      var procState := ProcessRhs(merger, env, rhsFile);
      visited := visited + [rhsFile];
      if IsPseudo(rhsFile) {
        consumedStdin := true;
      }
      if procState != 0 {
        exitState := procState;
        return;
      }
      i := i + 1;
    }
  }

  /** `main()` once the prime document is in the merger: the rest of its
      stream, the other files, the waiting standard input, and the output. */
  method MergeRest(merger: Merger, args: MergeArgs, env: MergeEnv, isStream: bool,
                   extra: seq<Option<Node>>, consumed: bool)
    returns (exit: int, visited: seq<string>, stdinDrained: bool, output: Option<Node>)
    requires |args.files| >= 1
    requires !isStream ==> extra == []
    modifies merger
    ensures MergeRun(exit, visited, stdinDrained, output) == AfterPrime(args, env, old(merger.data), extra, consumed)
  {
    var exitState := 0;
    if isStream {
      exitState := ProcessMultidoc(merger, env, extra);
      if exitState != 0 {
        return exitState, [], false, None;
      }
    }
    var consumedStdin;
    exitState, visited, consumedStdin := ProcessRhsFiles(merger, env, args.files, consumed);
    stdinDrained := false;
    if exitState == 0 && !consumedStdin && !args.nostdin && !env.stdinIsTty {
      exitState := ProcessRhs(merger, env, "-");
      visited := visited + ["-"];
      stdinDrained := true;
    }
    output := None;
    if exitState == 0 {
      output := Some(merger.data);
    }
    exit := exitState;
  }

  /** `main()` of yaml-merge, from `validateargs` on. `log.critical(msg, 1)`
      ends the run with status 1. */
  method MergeMain(args: MergeArgs, env: MergeEnv)
    returns (exit: int, visited: seq<string>, stdinDrained: bool, output: Option<Node>)
    ensures MergeRun(exit, visited, stdinDrained, output) == MainRun(args, env)
  {
    var hasErrors, checked := ValidateArgs(args, env);
    if hasErrors {
      return 1, [], false, None;
    }
    var primeFile := checked.files[0];
    var consumedStdin := IsPseudo(primeFile);
    var primeData := env.load(primeFile, false);
    var lhsData: Option<Node>;
    var extra: seq<Option<Node>> := [];
    if primeData.DocumentStream? {
      lhsData := if |primeData.docs| == 0 then None else primeData.docs[0];
      if |primeData.docs| > 0 {
        extra := primeData.docs[1..];
      }
    } else {
      lhsData := if primeData.OneDocument? then Some(primeData.doc) else None;
    }
    if lhsData.None? {
      return 1, [], false, None;
    }
    var merger := new Merger(lhsData.value);
    exit, visited, stdinDrained, output :=
      MergeRest(merger, checked, env, primeData.DocumentStream?, extra, consumedStdin);
  }

  // ---------------------------------------------------------------------
  // Properties of a run
  // ---------------------------------------------------------------------

  /** The file loop hands the files to `process_rhs` strictly in order,
      stops only at a failure (status 2 to 5), and records standard input
      as consumed exactly when one of the files it reached names it. */
  lemma RhsLoopShape(env: MergeEnv, files: seq<string>, i: nat, st: LoopState)
    requires st.exit == 0 && i <= |files|
    ensures var r := RhsLoop(env, files, i, st);
            var n := |r.visited| - |st.visited|;
            && |st.visited| <= |r.visited| <= |st.visited| + |files| - i
            && r.visited == st.visited + files[i..i + n]
            && (r.exit == 0 || 2 <= r.exit <= 5)
            && (r.exit == 0 ==> n == |files| - i)
            && (r.consumedStdin <==> st.consumedStdin || exists k :: i <= k < i + n && IsPseudo(files[k]))
  {
    RhsLoopVisits(env, files, i, st);
    RhsLoopConsumed(env, files, i, st);
  }

  lemma RhsLoopVisits(env: MergeEnv, files: seq<string>, i: nat, st: LoopState)
    requires st.exit == 0 && i <= |files|
    ensures var r := RhsLoop(env, files, i, st);
            var n := |r.visited| - |st.visited|;
            && |st.visited| <= |r.visited| <= |st.visited| + |files| - i
            && r.visited == st.visited + files[i..i + n]
            && (r.exit == 0 || 2 <= r.exit <= 5)
            && (r.exit == 0 ==> n == |files| - i)
  {
    RhsLoopOrder(env, files, i, st);
    RhsLoopExit(env, files, i, st);
  }

  /** The one step of the file loop at index `i`. */
  lemma RhsLoopStep(env: MergeEnv, files: seq<string>, i: nat, st: LoopState)
    requires i < |files|
    ensures var o := RhsOutcome(env, st.data, files[i]);
            var st' := LoopState(st.exit, o.data, st.visited + [files[i]], st.consumedStdin || IsPseudo(files[i]));
            && (o.code == 0 || 2 <= o.code <= 5)
            && RhsLoop(env, files, i, st) == if o.code != 0 then st'.(exit := o.code) else RhsLoop(env, files, i + 1, st')
  {
  }

  lemma {:induction false} RhsLoopOrder(env: MergeEnv, files: seq<string>, i: nat, st: LoopState)
    requires i <= |files|
    ensures var r := RhsLoop(env, files, i, st);
            var n := |r.visited| - |st.visited|;
            && |st.visited| <= |r.visited| <= |st.visited| + |files| - i
            && r.visited == st.visited + files[i..i + n]
    decreases |files| - i
  {
    if i < |files| {
      RhsLoopStep(env, files, i, st);
      var o := RhsOutcome(env, st.data, files[i]);
      var st' := LoopState(st.exit, o.data, st.visited + [files[i]], st.consumedStdin || IsPseudo(files[i]));
      if o.code != 0 {
        assert files[i..i + 1] == [files[i]];
      } else {
        RhsLoopOrder(env, files, i + 1, st');
        var r := RhsLoop(env, files, i + 1, st');
        var n' := |r.visited| - |st'.visited|;
        assert files[i..i + 1 + n'] == [files[i]] + files[i + 1..i + 1 + n'];
      }
    } else {
      assert files[i..i] == [];
    }
  }

  lemma {:induction false} RhsLoopExit(env: MergeEnv, files: seq<string>, i: nat, st: LoopState)
    requires st.exit == 0 && i <= |files|
    ensures var r := RhsLoop(env, files, i, st);
            && (r.exit == 0 || 2 <= r.exit <= 5)
            && (r.exit == 0 ==> |r.visited| == |st.visited| + |files| - i)
    decreases |files| - i
  {
    if i < |files| {
      RhsLoopStep(env, files, i, st);
      var o := RhsOutcome(env, st.data, files[i]);
      if o.code == 0 {
        RhsLoopExit(env, files, i + 1, LoopState(st.exit, o.data, st.visited + [files[i]], st.consumedStdin || IsPseudo(files[i])));
      }
    }
  }

  lemma {:induction false} RhsLoopConsumed(env: MergeEnv, files: seq<string>, i: nat, st: LoopState)
    requires i <= |files|
    ensures var r := RhsLoop(env, files, i, st);
            var n := |r.visited| - |st.visited|;
            && |st.visited| <= |r.visited|
            && (r.consumedStdin <==> st.consumedStdin || exists k :: i <= k < |files| && k < i + n && IsPseudo(files[k]))
    decreases |files| - i
  {
    if i < |files| {
      var o := RhsOutcome(env, st.data, files[i]);
      var st' := LoopState(st.exit, o.data, st.visited + [files[i]], st.consumedStdin || IsPseudo(files[i]));
      if o.code == 0 {
        RhsLoopConsumed(env, files, i + 1, st');
        var r := RhsLoop(env, files, i + 1, st');
        var n' := |r.visited| - |st'.visited|;
        if exists k :: i + 1 <= k < |files| && k < i + 1 + n' && IsPseudo(files[k]) {
          var k :| i + 1 <= k < |files| && k < i + 1 + n' && IsPseudo(files[k]);
          assert i <= k < |files| && k < i + 1 + n';
        }
        if IsPseudo(files[i]) {
          assert i <= i < |files| && i < i + 1 + n';
        }
      } else {
        if IsPseudo(files[i]) {
          assert i <= i < |files| && i < i + 1;
        }
      }
    }
  }

  /** Every run ends with a status from 0 to 7, and the merged document is
      written out exactly when the status is 0. Invalid arguments and a
      prime file without a first document give 1 before anything is merged. */
  lemma MainExitCodes(args: MergeArgs, env: MergeEnv)
    ensures var r := MainRun(args, env);
            && 0 <= r.exit <= 7
            && (r.output.Some? <==> r.exit == 0)
            && (!ArgsValid(args, env) ==> r == MergeRun(1, [], false, None))
            && (ArgsValid(args, env) && PrimeDocuments(env.load(args.files[0], false)).None?
                ==> r == MergeRun(1, [], false, None))
  {
    if ArgsValid(args, env) && PrimeDocuments(env.load(args.files[0], false)).Some? {
      var (lhs, extra) := PrimeDocuments(env.load(args.files[0], false)).value;
      AfterPrimeCodes(args, env, lhs, extra, IsPseudo(args.files[0]));
    }
  }

  lemma AfterPrimeCodes(args: MergeArgs, env: MergeEnv, lhs: Node, extra: seq<Option<Node>>, consumed: bool)
    requires |args.files| >= 1
    ensures var r := AfterPrime(args, env, lhs, extra, consumed);
            && (r.exit == 0 || 2 <= r.exit <= 7)
            && (r.output.Some? <==> r.exit == 0)
  {
    MultidocCodes(env, extra, 0, Outcome(0, lhs));
    var multi := MultidocOutcome(env, extra, 0, Outcome(0, lhs));
    if multi.code == 0 {
      var loop := RhsLoop(env, args.files, 1, LoopState(0, multi.data, [], consumed));
      RhsLoopShape(env, args.files, 1, LoopState(0, multi.data, [], consumed));
      RhsCodes(env, loop.data, "-");
    }
  }

  /** A failure in the rest of the prime file's stream ends the run with
      its status (6 or 7) before any other file is touched. */
  lemma MainMultidocFailure(args: MergeArgs, env: MergeEnv)
    requires ArgsValid(args, env)
    requires PrimeDocuments(env.load(args.files[0], false)).Some?
    requires var (lhs, extra) := PrimeDocuments(env.load(args.files[0], false)).value;
             !NoFailure(MergeStatuses(env, extra, 0, lhs))
    ensures var r := MainRun(args, env);
            (r.exit == 6 || r.exit == 7) && r.visited == [] && r.output == None
  {
    var (lhs, extra) := PrimeDocuments(env.load(args.files[0], false)).value;
    MultidocCodes(env, extra, 0, Outcome(0, lhs));
  }

  /** The files after the prime are merged in command-line order; a run
      that stops early has failed, a successful run has merged them all,
      and the implicit standard input comes last. */
  lemma MainFileOrder(args: MergeArgs, env: MergeEnv)
    ensures var r := MainRun(args, env);
            var n := |r.visited| - (if r.stdinDrained then 1 else 0);
            && 0 <= n
            && (r.visited != [] ==> 1 + n <= |args.files| && r.visited[..n] == args.files[1..1 + n])
            && (r.stdinDrained ==> r.visited[n] == "-")
            && (r.exit == 0 ==> 1 + n == |args.files|)
  {
    if ArgsValid(args, env) && PrimeDocuments(env.load(args.files[0], false)).Some? {
      var (lhs, extra) := PrimeDocuments(env.load(args.files[0], false)).value;
      var multi := MultidocOutcome(env, extra, 0, Outcome(0, lhs));
      if multi.code == 0 {
        var st := LoopState(0, multi.data, [], IsPseudo(args.files[0]));
        RhsLoopShape(env, args.files, 1, st);
        var loop := RhsLoop(env, args.files, 1, st);
        var r := MainRun(args, env);
        assert r.visited == loop.visited + (if r.stdinDrained then ["-"] else []);
        assert r.visited[..|loop.visited|] == loop.visited;
      }
    }
  }

  /** Standard input is merged as an implicit last source only when no
      file named it, `--nostdin` is not set and it is not a terminal; and
      a successful run under those conditions has merged it. */
  lemma MainStdinRule(args: MergeArgs, env: MergeEnv)
    ensures var r := MainRun(args, env);
            && (r.stdinDrained ==> !args.nostdin && !env.stdinIsTty
                                   && forall k :: 0 <= k < |args.files| ==> !IsPseudo(args.files[k]))
            && ((r.exit == 0 && !args.nostdin && !env.stdinIsTty
                 && forall k :: 0 <= k < |args.files| ==> !IsPseudo(args.files[k]))
                ==> r.stdinDrained)
  {
    if ArgsValid(args, env) && PrimeDocuments(env.load(args.files[0], false)).Some? {
      var (lhs, extra) := PrimeDocuments(env.load(args.files[0], false)).value;
      var multi := MultidocOutcome(env, extra, 0, Outcome(0, lhs));
      if multi.code == 0 {
        var st := LoopState(0, multi.data, [], IsPseudo(args.files[0]));
        RhsLoopShape(env, args.files, 1, st);
        var loop := RhsLoop(env, args.files, 1, st);
        var n := |loop.visited|;
        if loop.exit == 0 {
          if exists k :: 0 <= k < |args.files| && IsPseudo(args.files[k]) {
            var k :| 0 <= k < |args.files| && IsPseudo(args.files[k]);
            if k > 0 {
              assert 1 <= k < 1 + n;
            }
          }
        } else {
          RhsCodes(env, loop.data, "-");
        }
      }
    }
  }

  /** A name that is `-` only after stripping passes `validateargs` as the
      pseudo-file and marks standard input as consumed, but `process_rhs`
      compares the name as it is and rejects it unless such a file exists. */
  lemma PaddedPseudoFile(env: MergeEnv, data: Node, name: string)
    requires name == " -" && !env.isFile(name)
    ensures IsPseudo(name)
    ensures RhsOutcome(env, data, name) == Outcome(2, data)
  {
    assert Text.StripLeft(name) == name[1..];
    assert name[1..] == "-";
  }
}
