# yamlpath: path search, escaping and the merge command, in Dafny

This project models three parts of the Python package `yamlpath` and
proves properties of the model.

- **The helpers of `yamlpath/func.py`.** These cover:
  - backslash escaping of YAML Path text (`ensure_escaped`, `escape_path_section`);
  - the search comparison `search_matches`, for integer and string values;
  - anchor bookkeeping (`get_node_anchor`, `search_anchor`);
  - the default node for the next path segment (`build_next_node`);
  - the list append that moves a tail comment (`append_list_element`);
  - the tree rewrites `unwrap_node_coords` and `quote_every_string`.
- **The `yaml-paths` command (`yamlpath/commands/yaml_paths.py`).** This is
  the depth-first search `search_for_paths`, which lists the YAML Path of
  every matching key or value. It addresses anchored sequence elements
  as `[&name]`, skips repeated aliases, and reports a hit exactly when
  `matches XOR inverted` holds. Around it are the key check of
  `validateargs` and the per-file loop of `main`, which prefixes each
  output line and sets the exit status.
- **The `yaml-merge` command (`yamlpath/commands/yaml_merge.py`).** This
  covers the argument checks of `validateargs` and the state machine of
  `main`, `process_rhs` and `process_multidoc`. The document loader and
  the `Merger` are given functions. Files are merged left to right, and the first
  failure stops the run. Failures map to exit codes 2 to 7. Standard
  input is read as an implicit last source only under stated conditions,
  and the result is written only on success.

Modules:

| module | file | contents |
|---|---|---|
| `Wrappers` | `wrappers.dfy` | `Option`, `Result` |
| `Text` | `text.dfy` | the Python `str` behaviour the code relies on: `split`/`join`/`replace`, `strip`, `str(int)`, `int(str)`, string order |
| `PathTypes` | `path_types.dfy` | path separators, search methods, search terms, anchor classifications, path segment kinds |
| `Nodes` | `nodes.dfy` | the YAML tree: mappings (own and merged entries), sequences and scalars, each with an optional anchor |
| `Func` | `func.dfy` | `yamlpath/func.py` |
| `YamlPaths` | `yaml_paths.dfy` | `yamlpath/commands/yaml_paths.py` |
| `YamlMerge` | `yaml_merge.dfy` | `yamlpath/commands/yaml_merge.py` |

Operations that loop or update state in the source are methods with
loops. Each is proved equal to a specification function, and the
properties are lemmas about those functions:

- `ensure_escaped`, `quote_every_string` and `search_for_paths`;
- both `validateargs`, both `main` functions, `process_rhs` and `process_multidoc`.

`search_anchor`'s caller-owned list is the class `Func.AnchorList`. The
commented list of `append_list_element` is the class
`Func.CommentedList`. The merger's document is the class
`YamlMerge.Merger`.

## Model

| member | source | states |
|---|---|---|
| Func.EnsureEscaped | yamlpath/func.py:620-635 | the loop over the symbols (split on `\sym`, replace `sym` in each part, join) computes `Escaped(value, symbols)` |
| Func.ReplaceEach | yamlpath/func.py:631-633 | the inner loop replaces the symbol by its escape in every part and keeps the number of parts |
| Func.EscapeOneIsScan | yamlpath/func.py:629-634 | one round of split/replace/join equals a left-to-right scan that keeps `\sym` and escapes a bare `sym` |
| Func.ScanEscapes | yamlpath/func.py:629-634 | after the scan every occurrence of a non-backslash symbol is preceded by a backslash |
| Func.ScanKeepsEscaped | yamlpath/func.py:628-634 | escaping another symbol does not undo the escaping of an earlier one |
| Func.ScanFixed | yamlpath/func.py:629-634 | a string whose occurrences are all escaped is left unchanged by the scan |
| Func.ScanWithoutSymbol | yamlpath/func.py:629-634 | a string without the symbol is left unchanged by the scan |
| Func.EscapedAfterAt | yamlpath/func.py:629-634 | in an escaped string an occurrence is preceded by a backslash (or by the carried state at the start) |
| Func.EscapedAfterCons | yamlpath/func.py:629-634 | how the escaped-everywhere property splits over a first character and the rest |
| Func.EscapedAfterPair | yamlpath/func.py:629 | a leading `\sym` pair satisfies the escaping property and resets the carried state |
| Func.EscapedOneEscapes | yamlpath/func.py:628-634 | with one non-backslash symbol, every occurrence of it in the result is preceded by `\` |
| Func.EscapedOneIdempotent | yamlpath/func.py:628-634 | escaping twice for one non-backslash symbol equals escaping once |
| Func.EscapedWithoutSymbols | yamlpath/func.py:627-635 | the value is returned unchanged when none of the symbols occurs in it |
| Func.EscapedKeepsEscaped | yamlpath/func.py:628-634 | a symbol whose occurrences are all preceded by a backslash stays so through any further symbols |
| Func.EscapedEscapesAll | yamlpath/func.py:628-634 | every occurrence of each listed non-backslash symbol is immediately preceded by a backslash in the result |
| Func.EscapePathSection | yamlpath/func.py:637-648 | `ensure_escaped` with backslash, the separator, `()[]^$%`, space and both quotes, in that order: every occurrence of a listed non-backslash symbol is immediately preceded by a backslash; a section without any of them is unchanged |
| Func.BackslashedSymbolExample | yamlpath/func.py:637-648 | the section `\.` comes out as `\\.`: the backslash turn doubles the backslash, and the dot turn then takes the dot as escaped already |
| Func.SearchMatches | yamlpath/func.py:505-587 | the result is an error (NotImplementedError) exactly for a method outside the known ones |
| Func.UnparsedNeedleNeverMatches | yamlpath/func.py:510-515 | EQUALS/GT/LT/GTE/LTE against an integer are false, not an error, when the needle is not an integer |
| Func.NumericComparison | yamlpath/func.py:510-580 | on an integer haystack the comparison methods compare numerically with `int(needle)` |
| Func.ComparisonsAgree | yamlpath/func.py:510-580 | GTE is GT or EQUALS, LTE is LT or EQUALS; at most one of LT, EQUALS, GT holds, and one does whenever the comparison is defined |
| Func.SubstringMethods | yamlpath/func.py:523-528 | STARTS_WITH and ENDS_WITH imply CONTAINS, which is substring search in `str(haystack)` |
| Func.IntegerHaystackExample | yamlpath/func.py:510-524 | the string form of 10 starts with "1", but 10 does not equal `int("1")` |
| Func.GetNodeAnchor | yamlpath/func.py:494-503 | the anchor name, or None when it is missing or empty |
| Func.AnchorList.SearchAnchor | yamlpath/func.py:589-618 | the classification of the node's anchor against the list as it was, and the list afterwards with the name appended only if absent |
| Func.AnchorList.constructor | yamlpath/func.py:589 | a fresh list is empty |
| Func.MissingAnchor | yamlpath/func.py:592-594 | a node without a usable anchor is NO_ANCHOR under any flags and is not recorded |
| Func.RecordedKeepsNoDuplicates | yamlpath/func.py:596-599 | the list never gains a duplicate; it is unchanged without an anchor and holds the name afterwards |
| Func.LaterOccurrenceIsAlias | yamlpath/func.py:596-618 | a name met again after it was recorded is classified as an alias; a first meeting as an anchor |
| Func.AnchorDecisionOrder | yamlpath/func.py:601-618 | unsearchable when anchors are not searched; excluded for an alias without `include_aliases`; MATCH/ALIAS_INCLUDED exactly when `matches XOR inverted` |
| Func.BuildNextNode | yamlpath/func.py:218-243 | an empty map for a KEY segment at `depth`, an empty sequence for INDEX, the wrapped value past the end or for any other segment |
| Func.NextNodeIsContainer | yamlpath/func.py:237-243 | for a KEY or INDEX segment the value is ignored and the result is a container of the right kind |
| Func.CommentedList.constructor | yamlpath/func.py:245 | a list holding the given elements and comment slots |
| Func.CommentedList.AppendListElement | yamlpath/func.py:270-285 | the list grows by exactly `value` at the end; the old tail's end-of-line comment moves to the new tail's slot and the old slot is cleared; other comments are untouched |
| Func.Unwrap | yamlpath/func.py:660-671 | the result holds no coordinate wrapper, and a list keeps its length |
| Func.UnwrapList | yamlpath/func.py:665-669 | each element of a list is unwrapped in place, the length kept |
| Func.UnwrapNode | yamlpath/func.py:660-671 | a YAML list becomes a Python list whose items are unwrapped; any other node is returned as it is |
| Func.UnwrapElems | yamlpath/func.py:665-669 | the elements of a YAML list are unwrapped one by one, the length kept |
| Func.UnwrapIdentity | yamlpath/func.py:660-671 | data with no wrapper is returned unchanged |
| Func.UnwrapIdempotent | yamlpath/func.py:660-671 | unwrapping twice equals unwrapping once |
| Func.UnwrapLayers | yamlpath/func.py:662-663 | any number of nested wrappers around the same data unwrap to the same result |
| Func.QuoteScalar | yamlpath/func.py:694-699 | strings stay strings with the same text and end up double- or single-quoted; a string already quoted is unchanged, any other becomes double quoted; integers are unchanged |
| Func.QuoteEveryString | yamlpath/func.py:673-699 | the in-place rewrite (keys first, then values, then list slots) computes `Quoted(data)` |
| Func.QuotedIsAllQuoted | yamlpath/func.py:673-699 | afterwards every string key, value and element is double- or single-quoted |
| Func.QuotedUnchanged | yamlpath/func.py:694-699 | a tree whose strings are all quoted already, and every non-string, is left unchanged |
| Func.QuotedIdempotent | yamlpath/func.py:673-699 | quoting twice equals quoting once |
| Func.QuotedSameShape | yamlpath/func.py:673-699 | key order, key text, list lengths and the non-string scalars are preserved |
| YamlPaths.SearchForPaths | yamlpath/commands/yaml_paths.py:150-266 | the recursive generator yields exactly `Paths(...)`, in emission order |
| YamlPaths.SearchSeq | yamlpath/commands/yaml_paths.py:169-211 | the sequence branch yields the results of its elements in order |
| YamlPaths.SearchElement | yamlpath/commands/yaml_paths.py:175-211 | one element's results, and the anchor list after it, follow the specification step |
| YamlPaths.SearchMap | yamlpath/commands/yaml_paths.py:213-266 | the mapping branch yields the results of its entries in order |
| YamlPaths.TestCandidate | yamlpath/commands/yaml_paths.py:209-210 | the candidate is reported exactly when `(matches and not invert) or (invert and not matches)` |
| YamlPaths.SearchScalarValue | yamlpath/commands/yaml_paths.py:249-266 | a tested scalar value's results and the anchor list after it follow the mapping step |
| YamlPaths.MapEntryContainer | yamlpath/commands/yaml_paths.py:234-248 | a container value contributes the key's path (when the key matched) followed by everything found inside the value |
| YamlPaths.MapEntryUntested | yamlpath/commands/yaml_paths.py:234-249 | a scalar value that is not tested contributes at most the key's path |
| YamlPaths.MapEntryScreened | yamlpath/commands/yaml_paths.py:254-259 | a tested value whose anchor was seen before contributes nothing unless `include_aliases` |
| YamlPaths.MapEntryRecorded | yamlpath/commands/yaml_paths.py:254-266 | otherwise the value's path is reported exactly on a hit, and a new anchor name is appended to the list |
| YamlPaths.SearchEntry | yamlpath/commands/yaml_paths.py:223-266 | one entry's results, and the anchor list after it, follow the specification step |
| YamlPaths.PoolEntry | yamlpath/commands/yaml_paths.py:219-223 | the entries searched: own entries, then merged ones when aliases are included |
| YamlPaths.InvertedSearchComplements | yamlpath/commands/yaml_paths.py:206-211 | for one tested scalar element: it is reported exactly when `matches XOR inverted`, and a search and its inversion report it exactly once between them |
| YamlPaths.IndexHitsComplement | yamlpath/commands/yaml_paths.py:175-211 | over scalar elements, the index hits of a search and of its inversion add up to the number of elements |
| YamlPaths.InvertedSequenceComplements | yamlpath/commands/yaml_paths.py:169-211 | for a whole sequence of scalars without anchors, a value search and its inversion report as many paths between them as there are elements |
| YamlPaths.AnchorsBeforeSeen | yamlpath/commands/yaml_paths.py:167-193 | the `seen_anchors` list the sequence branch has built before element `i` holds exactly the anchor names of the elements before `i` |
| YamlPaths.SeqPathsIsReference | yamlpath/commands/yaml_paths.py:167-211 | with that list, the sequence branch gives the same results as a reference that asks "did an earlier element carry this anchor?" |
| YamlPaths.SequenceScreensRepeatedAnchors | yamlpath/commands/yaml_paths.py:167-211 | a sequence's results are those of its elements, a repeated anchor name skipped (without recursion) unless `include_aliases` |
| YamlPaths.SeenListBefore | yamlpath/commands/yaml_paths.py:249-262 | the list the mapping branch has built before entry `i` holds exactly the anchors of the scalar values tested before `i` |
| YamlPaths.MapSeenStep | yamlpath/commands/yaml_paths.py:254-262 | one entry appends its value's anchor only when the value is tested and the name is new, and keeps that property |
| YamlPaths.MapPathsIsReference | yamlpath/commands/yaml_paths.py:223-266 | with that list, the mapping branch gives the same results as a reference that asks "did an earlier tested value carry this anchor?" |
| YamlPaths.MappingScreensRepeatedValueAnchors | yamlpath/commands/yaml_paths.py:213-266 | a mapping's results, a repeated anchor skipped only on a tested scalar value |
| YamlPaths.NothingSearchedNothingFound | yamlpath/commands/yaml_paths.py:160-266 | with neither keys nor values searched, containers are still walked but nothing is reported |
| YamlPaths.SeqNothingFound | yamlpath/commands/yaml_paths.py:198-211 | the same for the rest of a sequence |
| YamlPaths.MapNothingFound | yamlpath/commands/yaml_paths.py:235-266 | the same for the rest of a mapping |
| YamlPaths.PathsExtendBuild | yamlpath/commands/yaml_paths.py:169-231 | every path found starts with the path given (with `/` leading at the root in slash mode) |
| YamlPaths.BelowExtends | yamlpath/commands/yaml_paths.py:198-248 | a child searched under a path that extends the prefix yields paths that extend it too |
| YamlPaths.SeqPathsExtend | yamlpath/commands/yaml_paths.py:173-196 | every path below a sequence starts with its `[` prefix |
| YamlPaths.MapPathsExtend | yamlpath/commands/yaml_paths.py:214-231 | every path below a mapping starts with its prefix, in either separator mode |
| YamlPaths.PrefixTrans | yamlpath/commands/yaml_paths.py:200-205 | a path prefix of a prefix is a prefix (for nested results) |
| YamlPaths.PrefixOfAppend | yamlpath/commands/yaml_paths.py:190-196 | a path built by appending starts with its base |
| YamlPaths.EqualsTwenty | yamlpath/commands/yaml_paths.py:209-210 | `=20` is a hit on the integer 20 only |
| YamlPaths.SeqPathsUnanchored | yamlpath/commands/yaml_paths.py:194-196 | an element without an anchor is addressed `[idx]` |
| YamlPaths.SeqPathsAnchored | yamlpath/commands/yaml_paths.py:178-193 | an anchored element is addressed `[&name]` with the name escaped for the separator, and skipped when already seen unless `include_aliases` |
| YamlPaths.PlainScalarsByIndex | yamlpath/commands/yaml_paths.py:175-211 | for unanchored scalar elements the results are the paths `prefix + str(idx) + "]"` of the hits, in index order |
| YamlPaths.ExampleSequenceByIndex | yamlpath/commands/yaml_paths.py:169-211 | searching `[10, 20, 30]` for `=20` gives `[1]` in dot mode and `/[1]` in slash mode |
| YamlPaths.AliasExampleElements | yamlpath/commands/yaml_paths.py:190-211 | each of two elements sharing an anchor, when not screened, is reported as `[&name]` |
| YamlPaths.ExampleAliasScreened | yamlpath/commands/yaml_paths.py:178-193 | two elements sharing an anchor give one result, or two with `include_aliases` |
| YamlPaths.KeyMatchReportedOnce | yamlpath/commands/yaml_paths.py:232-249 | a matching key's path comes once, before the results inside its value, and its scalar value is not tested |
| YamlPaths.ValidateArgs | yamlpath/commands/yaml_paths.py:114-148 | an error is found exactly when the checks fail |
| YamlPaths.KeysBothOrNeither | yamlpath/commands/yaml_paths.py:120-145 | the arguments are valid exactly when both EYAML keys or neither are set, and each one set is readable |
| YamlPaths.LineShape | yamlpath/commands/yaml_paths.py:312-322 | the result ends the line; with one file and one expression there is no prefix; with several files the line starts with the file name |
| YamlPaths.Prefixed | yamlpath/commands/yaml_paths.py:310-322 | one line per result, the prefix before each |
| YamlPaths.PrintResults | yamlpath/commands/yaml_paths.py:310-322 | the print loop emits the prefixed results in order |
| YamlPaths.PrefixedAppend | yamlpath/commands/yaml_paths.py:310-322 | printing one more result adds one more line at the end |
| YamlPaths.SearchExpression | yamlpath/commands/yaml_paths.py:307-322 | an expression that does not parse aborts the run with nothing more printed; one that parses prints its results before those of the next expressions |
| YamlPaths.FileLinesUnparsed | yamlpath/commands/yaml_paths.py:308-311 | an unparsable expression ends the file's search, aborted, with no lines |
| YamlPaths.FileLinesParsed | yamlpath/commands/yaml_paths.py:312-322 | a parsed expression's prefixed results come first, then those of the following expressions |
| YamlPaths.SearchFile | yamlpath/commands/yaml_paths.py:307-322 | the expressions of one file are searched in order and their lines printed |
| YamlPaths.PathsMain | yamlpath/commands/yaml_paths.py:268-324 | the file loop gives the run specified by `PathsMainRun` |
| YamlPaths.FileLinesAborted | yamlpath/commands/yaml_paths.py:308-311 | a file's search is aborted exactly when one of its expressions does not parse |
| YamlPaths.RunFilesExit | yamlpath/commands/yaml_paths.py:284-304 | the exit state is 0, 1 or 3; a YAML syntax failure (3) is never reset; it is 0 exactly when every file loaded and every expression parsed |
| YamlPaths.MainExit | yamlpath/commands/yaml_paths.py:268-324 | exit 0, 1 or 3; 0 exactly when the arguments are valid, every file loads and every expression parses; invalid arguments exit 1 with no output |
| YamlPaths.SingleFileSingleExpression | yamlpath/commands/yaml_paths.py:285-324 | one file and one expression print exactly the search results, unprefixed, with exit 0 |
| YamlMerge.Forced | yamlpath/commands/yaml_merge.py:193-202 | without `--output` quiet is forced on and verbose and debug off; with it the arguments are unchanged |
| YamlMerge.CountPseudo | yamlpath/commands/yaml_merge.py:175-178 | the loop counts the names that are `-` after stripping |
| YamlMerge.ValidateArgs | yamlpath/commands/yaml_merge.py:157-205 | an error is found (exit 1) exactly when the checks fail, and the arguments come back with the quiet rule applied |
| YamlMerge.PseudoCountPositive | yamlpath/commands/yaml_merge.py:175-178 | one `-` among the names makes the count positive |
| YamlMerge.PseudoCountTwo | yamlpath/commands/yaml_merge.py:175-181 | more than one `-` is counted exactly when two different names are `-` |
| YamlMerge.PseudoWitnessExists | yamlpath/commands/yaml_merge.py:175-178 | a positive count has a name that is `-` |
| YamlMerge.InputCountRule | yamlpath/commands/yaml_merge.py:162-172 | no file, or one file with stdin a TTY, that file `-`, or `--nostdin`, fails validation |
| YamlMerge.OnePseudoFileRule | yamlpath/commands/yaml_merge.py:175-181 | two names that are `-` fail validation |
| YamlMerge.RhsCodes | yamlpath/commands/yaml_merge.py:209-236 | `process_rhs` gives 0, 2, 3, 4 or 5: 2 exactly for a name that is neither `-` nor a file, without loading; 3 exactly when loading yields nothing; neither changes the document |
| YamlMerge.PaddedPseudoFile | yamlpath/commands/yaml_merge.py:212-214 | a name such as ` -` is `-` to the stripping tests but is not standard input to `process_rhs`, which rejects it with 2 |
| YamlMerge.Merger.constructor | yamlpath/commands/yaml_merge.py:297 | the merger starts from the prime document |
| YamlMerge.Merger.MergeWith | yamlpath/commands/yaml_merge.py:226-234 | the merge's status, and the merger's document afterwards |
| YamlMerge.ProcessRhs | yamlpath/commands/yaml_merge.py:209-236 | the exit state and the merger's document are those of `RhsOutcome` |
| YamlMerge.ProcessMultidoc | yamlpath/commands/yaml_merge.py:238-263 | the loop over the documents gives `MultidocOutcome` |
| YamlMerge.MultidocMergesAll | yamlpath/commands/yaml_merge.py:241-261 | one merge per non-empty document: empty documents are skipped and a failure stops nothing |
| YamlMerge.MultidocNoFailure | yamlpath/commands/yaml_merge.py:239-261 | when no merge fails the state stays as it was |
| YamlMerge.MultidocLastFailure | yamlpath/commands/yaml_merge.py:254-263 | the result is 6 or 7 according to the last merge that failed |
| YamlMerge.MultidocCodes | yamlpath/commands/yaml_merge.py:238-263 | the result is 0, 6 or 7, and 0 exactly when no merge failed |
| YamlMerge.ProcessRhsFiles | yamlpath/commands/yaml_merge.py:309-319 | the file loop gives `RhsLoop` |
| YamlMerge.MergeRest | yamlpath/commands/yaml_merge.py:299-338 | everything after the prime document gives `AfterPrime` |
| YamlMerge.MergeMain | yamlpath/commands/yaml_merge.py:265-338 | the run (exit, files merged, stdin drained, output) is `MainRun` |
| YamlMerge.RhsLoopShape | yamlpath/commands/yaml_merge.py:309-319 | files go to `process_rhs` strictly in order; the loop stops early only with 2 to 5; standard input counts as consumed exactly when a file reached was `-` |
| YamlMerge.RhsLoopStep | yamlpath/commands/yaml_merge.py:309-319 | one file: `process_rhs` gives 0 or 2 to 5; a non-zero status stops the loop with that status, a zero goes on to the next file |
| YamlMerge.RhsLoopOrder | yamlpath/commands/yaml_merge.py:309-319 | the files visited are a prefix of the remaining files, in order |
| YamlMerge.RhsLoopExit | yamlpath/commands/yaml_merge.py:309-319 | the loop ends with 0 or 2 to 5, and with 0 only after visiting every file |
| YamlMerge.RhsLoopVisits | yamlpath/commands/yaml_merge.py:309-319 | the order, early stop and status part of the same |
| YamlMerge.RhsLoopConsumed | yamlpath/commands/yaml_merge.py:313-315 | the consumed-standard-input part of the same |
| YamlMerge.MainExitCodes | yamlpath/commands/yaml_merge.py:265-338 | the exit status is 0 to 7; output exactly on 0; invalid arguments or a prime without a first document exit 1 before anything is merged |
| YamlMerge.AfterPrimeCodes | yamlpath/commands/yaml_merge.py:299-338 | after the prime the status is 0 or 2 to 7, with output exactly on 0 |
| YamlMerge.MainMultidocFailure | yamlpath/commands/yaml_merge.py:299-305 | a failure among the prime's extra documents exits with 6 or 7 before any other file is touched |
| YamlMerge.MainFileOrder | yamlpath/commands/yaml_merge.py:309-327 | the files merged are the command line's after the prime, in order, then the implicit `-`; a successful run merged them all |
| YamlMerge.MainStdinRule | yamlpath/commands/yaml_merge.py:273-327 | standard input is drained only when no file named it, `--nostdin` is off and it is not a TTY; a successful run under those conditions drained it |
| Text.JoinSplit | yamlpath/func.py:630-634 | joining the parts of a split with the same separator gives the string back |
| Text.StripShape | yamlpath/commands/yaml_merge.py:166 | `strip` removes white space at the ends only: the result is the slice between a white-space head and a white-space tail, it has no white space at either end, and a string already without it is unchanged |
| Text.ParseDecimal | yamlpath/func.py:513 | `int(str(i)) == i` |
| Text.LessTrichotomy | yamlpath/func.py:541-554 | exactly one of `a < b`, `a == b`, `b < a` holds for Python string order |
| Text.LessTransitive | yamlpath/func.py:541-554 | `a < b` and `b < c` give `a < c`, so with trichotomy string order is a strict total order |

## Left out

- Loading and dumping YAML (`get_yaml_editor`, `get_yaml_data`, `get_yaml_multidoc_data`, `prepare_for_dump`, the `dump` calls), opening files and reading standard input. In `yaml-merge` loading is the function `load(name, allowMultidoc)`. It yields nothing, one document, or a stream. In `yaml-paths` loading yields a document, a syntax-class error (ParserError, ComposerError, ScannerError: status 3, next file) or any other error. Any other error ends the run with status 1, with the lines printed so far.
- yamlpath/func.py:62 `get_yaml_data` takes no `allow_multidoc` argument, although `yaml_merge.py` passes one. The model follows the caller and passes the flag to the loader.
- The `Merger`, `MergerConfig` and every merge rule. A merge is the function `merge(document, input)`. It yields a status (merged, MergeException, YAMLPathException) and the merger's document afterwards.
- `isfile`, `access`, `exists` and `isatty` are boolean inputs. Log messages and the EYAML processor are left out, and so is argument parsing (`processcli`).
- REGEX searches and the float branches of `search_matches`, that is, Python `re` and floating point. Booleans and null scalars are left out too. `int(needle)` follows Python's decimal form, with surrounding white space and one sign. Digit separators (`_`) and non-ASCII digits are left out.
- `wrap_type`, `make_new_node`, `make_float_node` and `clone_node`. `build_next_node` receives `wrap_type(value)` as a parameter.
- Func.CommentedList.AppendListElement: models only the path without an anchor, as the value is an already-built node. The comment move is stated on the comment map. Its tail-comment postcondition holds only when the old tail had a comment, because a stale comment already at the new index stays in place.
- Func.QuoteEveryString: modelled on values. It returns the rewritten tree instead of updating the dictionaries and lists in place, so aliasing between shared subtrees is not modelled. The rewrite is idempotent, so a shared subtree gets the same result. The key rewrite in the source pops and re-inserts keys at their index, and the model keeps key order as a result. A quoted string scalar loses its anchor.
- Merge keys (`<<`) are things the model does not compute. A mapping carries its merged entries separately from its own entries. `items()` lists own entries first, and duplicates between the two are not resolved.
- The YAMLPath class, which parses, renders and escapes segments. Paths are the strings `search_for_paths` builds. The text of an expression is parsed into search terms by the function `parse`, which may fail. Nothing in `main` catches that failure, so it ends the run with status 1 and the lines printed so far.
- `create_searchterms_from_pathattributes` (yamlpath/func.py:650-658) only copies a record.
- The AUTO path separator is left out. Only dot and slash are modelled.
- YamlPaths.PathsMain: `main` calls `search_for_paths` without keyword flags, so the `-k`, `-o` and `-a` options never reach the search. The model follows the code and always searches with the defaults (values only, no aliases).

## Notes

- `escape_path_section` runs the backslash turn of `ensure_escaped` first, and every later turn takes `\sym` as a symbol escaped already. A symbol that follows a backslash in the input therefore comes out after an escaped backslash, itself unescaped: the section `\.` becomes `\\.` (`Func.BackslashedSymbolExample`). The key of a mapping entry gets the same treatment in `search_for_paths` (yamlpath/commands/yaml_paths.py:230-231), so the key `a\.b` gives the path `a\\.b`. The model keeps this behaviour, and its escaping lemmas state only that each symbol is immediately preceded by a backslash.
- `yaml-merge` compares names with `-` after stripping white space in `validateargs` and when marking standard input as consumed. `process_rhs` compares the name as it is. A name such as ` -` is therefore accepted as the pseudo-file by validation, but rejected with status 2 when merged (`YamlMerge.PaddedPseudoFile`).
- Validation in `yaml-merge` exits with status 1 on any failed check. `log.critical(message, 1)`, used for a prime without a first document, ends the run with status 1 as well.
