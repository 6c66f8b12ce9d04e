/** Metric names: lists of node names, read from and written as delimited strings. */
module MetricNames {
  import opened Commons
  import opened Splitting

  datatype ParseError = UnexpectedEmpty | InvalidGraphic(c: char) | NotAlphaNumeric

  /** Which characters outside ASCII are letters or digits is decided by the Unicode tables. */
  type Alphanumeric = char -> bool

  predicate Allowed(c: char) {
    'a' <= c <= 'z' || 'A' <= c <= 'Z' || '0' <= c <= '9' || c == '-' || c == '_' || c == '.' || c == '/'
  }

  function CharError(c: char, alnum: Alphanumeric): Option<ParseError> {
    if c < 128 as char then
      if Allowed(c) then None else if '!' <= c <= '~' then Some(InvalidGraphic(c)) else Some(NotAlphaNumeric)
    else if alnum(c) then None
    else Some(NotAlphaNumeric)
  }

  /** The error of the first character that is not allowed. */
  function CharsError(s: string, alnum: Alphanumeric): Option<ParseError> {
    if s == "" then None
    else
      var first := CharError(s[0], alnum);
      if first.Some? then first else CharsError(s[1..], alnum)
  }

  function NodeError(s: string, alnum: Alphanumeric): Option<ParseError> {
    if s == "" then Some(UnexpectedEmpty) else CharsError(s, alnum)
  }

  ghost predicate ValidNode(s: string, alnum: Alphanumeric) {
    s != "" && forall k :: 0 <= k < |s| ==> CharError(s[k], alnum).None?
  }

  lemma {:induction false} CharsErrorIff(s: string, alnum: Alphanumeric)
    ensures CharsError(s, alnum).None? <==> forall k :: 0 <= k < |s| ==> CharError(s[k], alnum).None?
  {
    if s != "" {
      CharsErrorIff(s[1..], alnum);
      assert forall k :: 0 < k < |s| ==> s[k] == s[1..][k - 1];
    }
  }

  /** The characters of a node: ASCII letters and digits, `-`, `_`, `.`, `/`, and others that are alphanumeric. */
  ghost predicate NodeChar(c: char, alnum: Alphanumeric) {
    || 'a' <= c <= 'z' || 'A' <= c <= 'Z' || '0' <= c <= '9' || c == '-' || c == '_' || c == '.' || c == '/'
    || (c >= 128 as char && alnum(c))
  }

  /** A node is valid if it is not empty and has node characters only. */
  lemma ValidNodeIs(s: string, alnum: Alphanumeric)
    ensures ValidNode(s, alnum) <==> s != "" && forall k :: 0 <= k < |s| ==> NodeChar(s[k], alnum)
  {
    forall k | 0 <= k < |s| ensures CharError(s[k], alnum).None? <==> NodeChar(s[k], alnum) {
    }
  }

  /** The first character that is no node character is reported itself if it is printable ASCII. */
  lemma {:induction false} CharsErrorIs(s: string, alnum: Alphanumeric, k: nat)
    requires k < |s| && !NodeChar(s[k], alnum) && forall j :: 0 <= j < k ==> NodeChar(s[j], alnum)
    ensures NodeError(s, alnum) == Some(if '!' <= s[k] <= '~' then InvalidGraphic(s[k]) else NotAlphaNumeric)
    decreases k
  {
    if k > 0 {
      assert NodeChar(s[0], alnum);
      assert forall j :: 0 <= j < k - 1 ==> s[1..][j] == s[j + 1];
      CharsErrorIs(s[1..], alnum, k - 1);
    }
  }

  ghost predicate ValidNodes(nodes: seq<string>, alnum: Alphanumeric) {
    forall k :: 0 <= k < |nodes| ==> ValidNode(nodes[k], alnum)
  }

  /** The text of a list of nodes. */
  ghost function Text(nodes: seq<string>, delimiter: char): string {
    if nodes == [] then "" else Join(nodes, delimiter)
  }

  class MetricName {
    var nodes: seq<string>

    constructor From(nodes: seq<string>)
      ensures this.nodes == nodes
    {
      this.nodes := nodes;
    }

    method AddPrefix(prefix: MetricName)
      modifies this`nodes
      ensures nodes == old(prefix.nodes) + old(nodes)
    {
      var newNodes := prefix.nodes;
      newNodes := newNodes + nodes;
      nodes := newNodes;
    }

    method Display(delimiter: char) returns (text: string)
      ensures text == Text(nodes, delimiter)
    {
      if nodes == [] {
        return "";
      }
      text := nodes[0];
      for i := 1 to |nodes|
        invariant text == Join(nodes[..i], delimiter)
      {
        JoinSnoc(nodes[..i], nodes[i], delimiter);
        assert nodes[..i + 1] == nodes[..i] + [nodes[i]];
        text := text + [delimiter];
        text := text + nodes[i];
      }
      assert nodes[..|nodes|] == nodes;
    }
  }

  /** Parsing succeeds iff every piece is a valid node; otherwise the first bad piece tells the error. */
  method ParseWithDelimiter(s: string, delimiter: char, alnum: Alphanumeric) returns (r: Result<MetricName, ParseError>)
    ensures r.Ok? <==> ValidNodes(Split(s, delimiter), alnum)
    ensures r.Ok? ==> fresh(r.value) && r.value.nodes == Split(s, delimiter)
    ensures r.Err? ==> exists k ::
              && 0 <= k < |Split(s, delimiter)| && NodeError(Split(s, delimiter)[k], alnum) == Some(r.error)
              && ValidNodes(Split(s, delimiter)[..k], alnum)
  {
    var pieces := Split(s, delimiter);
    var nodes: seq<string> := [];
    for i := 0 to |pieces|
      invariant nodes == pieces[..i] && ValidNodes(nodes, alnum)
    {
      var error := NodeError(pieces[i], alnum);
      CharsErrorIff(pieces[i], alnum);
      if error.Some? {
        return Err(error.value);
      }
      nodes := nodes + [pieces[i]];
    }
    assert nodes == pieces;
    var name := new MetricName.From(nodes);
    r := Ok(name);
  }

  lemma {:induction false} JoinSnoc(nodes: seq<string>, node: string, d: char)
    requires nodes != []
    ensures Join(nodes + [node], d) == Join(nodes, d) + [d] + node
  {
    if |nodes| > 1 {
      assert (nodes + [node])[1..] == nodes[1..] + [node];
      JoinSnoc(nodes[1..], node, d);
    }
  }

  lemma {:induction false} JoinConcat(a: seq<string>, b: seq<string>, d: char)
    requires a != [] && b != []
    ensures Join(a + b, d) == Join(a, d) + [d] + Join(b, d)
  {
    assert (a + b)[1..] == a[1..] + b;
    if |a| > 1 {
      JoinConcat(a[1..], b, d);
    } else {
      assert a[1..] + b == b;
    }
  }

  /** An accepted name is printed as it was written. */
  method ParseThenDisplay(s: string, delimiter: char, alnum: Alphanumeric) returns (text: Option<string>)
    ensures text == if ValidNodes(Split(s, delimiter), alnum) then Some(s) else None
  {
    var r := ParseWithDelimiter(s, delimiter, alnum);
    if r.Err? {
      return None;
    }
    var t := r.value.Display(delimiter);
    JoinOfSplit(s, delimiter);
    return Some(t);
  }

  /** A printed name is parsed back iff it has nodes, all valid and free of the delimiter. */
  method DisplayThenParse(nodes: seq<string>, delimiter: char, alnum: Alphanumeric) returns (r: Result<MetricName, ParseError>)
    ensures (r.Ok? && r.value.nodes == nodes) <==> nodes != [] && ValidNodes(nodes, alnum) && FreeOf(nodes, delimiter)
  {
    var name := new MetricName.From(nodes);
    var text := name.Display(delimiter);
    r := ParseWithDelimiter(text, delimiter, alnum);
    SplitIsFree(text, delimiter);
    if nodes != [] && FreeOf(nodes, delimiter) {
      SplitOfJoin(nodes, delimiter);
    }
  }

  /** A prefixed name prints as prefix, delimiter and name; an empty side adds nothing. */
  method PrefixThenDisplay(name: MetricName, prefix: MetricName, delimiter: char) returns (text: string)
    modifies name`nodes
    ensures var p, n := old(prefix.nodes), old(name.nodes);
            text == if p == [] then Text(n, delimiter) else if n == [] then Text(p, delimiter)
                    else Text(p, delimiter) + [delimiter] + Text(n, delimiter)
  {
    ghost var p, n := prefix.nodes, name.nodes;
    name.AddPrefix(prefix);
    text := name.Display(delimiter);
    if p == [] {
      assert p + n == n;
    } else if n == [] {
      assert p + n == p;
    } else {
      JoinConcat(p, n, delimiter);
    }
  }
}
