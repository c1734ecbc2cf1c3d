/** The document tree as ruamel.yaml hands it to the core: mappings
    (CommentedMap), sequences (CommentedSeq) and scalars, each possibly
    carrying an anchor. */
module Nodes {
  import opened Wrappers
  import Text

  /** The ruamel.yaml string wrappers: a bare `str` or PlainScalarString,
      DoubleQuotedScalarString, SingleQuotedScalarString, FoldedScalarString,
      LiteralScalarString. */
  datatype Style = Plain | DoubleQuoted | SingleQuoted | Folded | Literal

  /** The scalar values the model covers: integers and strings. */
  datatype Scalar = IntScalar(i: int) | StrScalar(s: string, style: Style)

  /** `str(value)` */
  function Str(v: Scalar): string
  {
    match v
    case IntScalar(i) => Text.DecimalString(i)
    case StrScalar(s, _) => s
  }

  /** A node of the tree. `anchor` is `anchor.value` of the ruamel object:
      `None` for a node without one (also for a plain `str` or `int`, which
      has no `anchor` attribute at all). A mapping keeps its own entries
      apart from the entries it inherits through YAML merge keys (`<<`);
      `non_merged_items()` gives the former, `items()` both, own first. */
  datatype Node =
    | MapNode(own: seq<Entry>, merged: seq<Entry>, anchor: Option<string>)
    | SeqNode(elems: seq<Node>, anchor: Option<string>)
    | ScalarNode(value: Scalar, anchor: Option<string>)

  datatype Entry = Entry(key: Scalar, value: Node)

  /** `isinstance(node, (CommentedSeq, CommentedMap))` */
  predicate IsContainer(n: Node)
  {
    n.MapNode? || n.SeqNode?
  }
}
