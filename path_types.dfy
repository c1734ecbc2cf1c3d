/** The vocabulary the modelled code takes from yamlpath's enumerations and
    from the search terms of a parsed YAML Path (`yamlpath/enums` and
    `yamlpath/path` are not part of this model; only the members the core
    uses appear here). */
module PathTypes {

  /** PathSeperators: the two notations a YAML Path can be rendered in. */
  datatype PathSep = Dot | ForwardSlash

  /** `str(pathsep)` */
  function SepChar(sep: PathSep): char
  {
    if sep == Dot then '.' else '/'
  }

  /** PathSearchMethods, without REGEX. `Unlisted` stands for a method value
      that `search_matches` has no branch for. */
  datatype SearchMethod =
    | Equals
    | StartsWith
    | EndsWith
    | Contains
    | GreaterThan
    | LessThan
    | GreaterThanOrEqual
    | LessThanOrEqual
    | Unlisted

  /** The methods a parsed search expression can carry. */
  type KnownMethod = m: SearchMethod | !m.Unlisted? witness Equals

  /** SearchTerms: `[attribute method term]`, possibly inverted with `!`. */
  datatype SearchTerms = SearchTerms(inverted: bool, searchMethod: KnownMethod, term: string)

  /** AnchorMatches: how `search_anchor` classifies a node. */
  datatype AnchorMatch =
    | NoAnchor
    | UnsearchableAnchor
    | UnsearchableAlias
    | AliasExcluded
    | Match
    | AliasIncluded
    | NoMatch

  /** PathSegmentTypes as far as `build_next_node` distinguishes them;
      `OtherSegment` is any other segment type (anchor, search, ...). */
  datatype SegmentType = KeySegment | IndexSegment | OtherSegment

  /** One parsed YAML Path segment: its type and its text. */
  datatype Segment = Segment(kind: SegmentType, text: string)
}
