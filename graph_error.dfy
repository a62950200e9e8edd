/** The errors of the graph-editing operations and the text each one displays. */
module GraphError {
  import opened Text

  datatype GraphOperationError =
    | FileError(message: string)
    | IdAlreadyExist(id: string)
    | NodesNotExist(first: string, second: string)
    | EdgeNotExist(left: string, right: string)
    | PathNotExist(path: string)
    | OrientationNotExists(reference: string)
    | Unknown

  const ID_PREFIX := "The Id provided ("
  const ID_SUFFIX := ") already exists"
  const NODES_PREFIX := "Cannot find the node(s): "
  const EDGE_PREFIX := "The Edge ("
  const EDGE_ARROW := " -> "
  const EDGE_SUFFIX := ") did not exist"
  const PATH_PREFIX := "The Path ("
  const PATH_SUFFIX := ") did not exist"
  const ORIENTATION_PREFIX := "Segment reference Id ("
  const ORIENTATION_SUFFIX := ") did not include orientation"
  const UNKNOWN_MESSAGE := "Unknown error while operating on the graph"

  /** `Display for GraphOperationError`. */
  function Message(e: GraphOperationError): string
  {
    match e
    case FileError(s) => s
    case IdAlreadyExist(id) => ID_PREFIX + id + ID_SUFFIX
    case NodesNotExist(l, r) => NODES_PREFIX + l + " " + r
    case EdgeNotExist(l, r) => EDGE_PREFIX + l + EDGE_ARROW + r + EDGE_SUFFIX
    case PathNotExist(p) => PATH_PREFIX + p + PATH_SUFFIX
    case OrientationNotExists(x) => ORIENTATION_PREFIX + x + ORIENTATION_SUFFIX
    case Unknown => UNKNOWN_MESSAGE
  }

  predicate NotSpace(c: char) { c != ' ' }

  /** The messages that can be read back: every variant except `FileError`
    * (whose text is arbitrary), where the argument in front of a space
    * separator does not itself contain a space. */
  predicate Readable(e: GraphOperationError)
  {
    match e
    case FileError(_) => false
    case NodesNotExist(l, _) => All(l, NotSpace)
    case EdgeNotExist(l, _) => All(l, NotSpace)
    case _ => true
  }

  predicate Framed(m: string, prefix: string, suffix: string)
  {
    |m| >= |prefix| + |suffix| && m[..|prefix|] == prefix && m[|m| - |suffix|..] == suffix
  }

  function Inner(m: string, prefix: string, suffix: string): string
    requires Framed(m, prefix, suffix)
  {
    m[|prefix|..|m| - |suffix|]
  }

  /** Reads a message back into the error that displays it. */
  function ParseMessage(m: string): (r: Option<GraphOperationError>)
    ensures r.Some? ==> Readable(r.value)
  {
    if Framed(m, ID_PREFIX, ID_SUFFIX) then
      Some(IdAlreadyExist(Inner(m, ID_PREFIX, ID_SUFFIX)))
    else if Framed(m, NODES_PREFIX, "") then
      var body := m[|NODES_PREFIX|..];
      var k := Span(body, NotSpace);
      if k < |body| then Some(NodesNotExist(body[..k], body[k + 1..])) else None
    else if Framed(m, EDGE_PREFIX, EDGE_SUFFIX) then
      var body := Inner(m, EDGE_PREFIX, EDGE_SUFFIX);
      var k := Span(body, NotSpace);
      if k + |EDGE_ARROW| <= |body| && body[k..k + |EDGE_ARROW|] == EDGE_ARROW then
        Some(EdgeNotExist(body[..k], body[k + |EDGE_ARROW|..]))
      else None
    else if Framed(m, PATH_PREFIX, PATH_SUFFIX) then
      Some(PathNotExist(Inner(m, PATH_PREFIX, PATH_SUFFIX)))
    else if Framed(m, ORIENTATION_PREFIX, ORIENTATION_SUFFIX) then
      Some(OrientationNotExists(Inner(m, ORIENTATION_PREFIX, ORIENTATION_SUFFIX)))
    else if m == UNKNOWN_MESSAGE then
      Some(Unknown)
    else None
  }

  lemma FramedBy(prefix: string, x: string, suffix: string)
    ensures Framed(prefix + x + suffix, prefix, suffix)
    ensures Inner(prefix + x + suffix, prefix, suffix) == x
  {
    var m := prefix + x + suffix;
    assert m[..|prefix|] == prefix;
    assert m[|m| - |suffix|..] == suffix;
    assert m[|prefix|..|m| - |suffix|] == x;
  }

  /** Two strings that differ at a position both have cannot carry the same prefix. */
  lemma NotFramedAt(m: string, prefix: string, suffix: string, i: nat)
    requires i < |prefix| && i < |m| && m[i] != prefix[i]
    ensures !Framed(m, prefix, suffix)
  {
  }

  /** A space-free argument followed by a separator that starts with a space
    * is cut off exactly at the separator. */
  lemma SplitAtSeparator(l: string, sep: string, r: string)
    requires All(l, NotSpace) && |sep| > 0 && sep[0] == ' '
    ensures Span(l + sep + r, NotSpace) == |l|
    ensures (l + sep + r)[..|l|] == l
    ensures (l + sep + r)[|l|..|l| + |sep|] == sep
    ensures (l + sep + r)[|l| + |sep|..] == r
  {
    assert l + sep + r == l + (sep + r);
    SpanOfRun(l, sep + r, NotSpace);
  }

  lemma ParseNodesMessage(l: string, r: string)
    requires All(l, NotSpace)
    ensures ParseMessage(Message(NodesNotExist(l, r))) == Some(NodesNotExist(l, r))
  {
    var m := Message(NodesNotExist(l, r));
    assert m == NODES_PREFIX + (l + " " + r) + "";
    FramedBy(NODES_PREFIX, l + " " + r, "");
    NotFramedAt(m, ID_PREFIX, ID_SUFFIX, 0);
    assert m[|NODES_PREFIX|..] == l + " " + r;
    SplitAtSeparator(l, " ", r);
  }

  lemma ParseEdgeMessage(l: string, r: string)
    requires All(l, NotSpace)
    ensures ParseMessage(Message(EdgeNotExist(l, r))) == Some(EdgeNotExist(l, r))
  {
    var m := Message(EdgeNotExist(l, r));
    assert m == EDGE_PREFIX + (l + EDGE_ARROW + r) + EDGE_SUFFIX;
    FramedBy(EDGE_PREFIX, l + EDGE_ARROW + r, EDGE_SUFFIX);
    assert m[0] == 'T' && m[4] == 'E';
    NotFramedAt(m, ID_PREFIX, ID_SUFFIX, 4);
    NotFramedAt(m, NODES_PREFIX, "", 0);
    SplitAtSeparator(l, EDGE_ARROW, r);
  }

  lemma ParsePathMessage(p: string)
    ensures ParseMessage(Message(PathNotExist(p))) == Some(PathNotExist(p))
  {
    var m := Message(PathNotExist(p));
    FramedBy(PATH_PREFIX, p, PATH_SUFFIX);
    assert m[0] == 'T' && m[4] == 'P';
    NotFramedAt(m, ID_PREFIX, ID_SUFFIX, 4);
    NotFramedAt(m, NODES_PREFIX, "", 0);
    NotFramedAt(m, EDGE_PREFIX, EDGE_SUFFIX, 4);
  }

  lemma ParseOrientationMessage(x: string)
    ensures ParseMessage(Message(OrientationNotExists(x))) == Some(OrientationNotExists(x))
  {
    var m := Message(OrientationNotExists(x));
    FramedBy(ORIENTATION_PREFIX, x, ORIENTATION_SUFFIX);
    assert m[0] == 'S';
    NotFramedAt(m, ID_PREFIX, ID_SUFFIX, 0);
    NotFramedAt(m, NODES_PREFIX, "", 0);
    NotFramedAt(m, EDGE_PREFIX, EDGE_SUFFIX, 0);
    NotFramedAt(m, PATH_PREFIX, PATH_SUFFIX, 0);
  }

  lemma ParseUnknownMessage()
    ensures ParseMessage(Message(Unknown)) == Some(Unknown)
  {
    var m := Message(Unknown);
    assert m[0] == 'U';
    NotFramedAt(m, ID_PREFIX, ID_SUFFIX, 0);
    NotFramedAt(m, NODES_PREFIX, "", 0);
    NotFramedAt(m, EDGE_PREFIX, EDGE_SUFFIX, 0);
    NotFramedAt(m, PATH_PREFIX, PATH_SUFFIX, 0);
    NotFramedAt(m, ORIENTATION_PREFIX, ORIENTATION_SUFFIX, 0);
  }

  /** The message of every readable error reads back as that error: the text
    * names the variant and shows its arguments verbatim. */
  lemma ParseMessageOfMessage(e: GraphOperationError)
    requires Readable(e)
    ensures ParseMessage(Message(e)) == Some(e)
  {
    match e
    case IdAlreadyExist(id) => FramedBy(ID_PREFIX, id, ID_SUFFIX);
    case NodesNotExist(l, r) => ParseNodesMessage(l, r);
    case EdgeNotExist(l, r) => ParseEdgeMessage(l, r);
    case PathNotExist(p) => ParsePathMessage(p);
    case OrientationNotExists(x) => ParseOrientationMessage(x);
    case Unknown => ParseUnknownMessage();
  }

  /** Distinct readable errors display distinct messages. */
  lemma MessageInjective(e1: GraphOperationError, e2: GraphOperationError)
    requires Readable(e1) && Readable(e2) && Message(e1) == Message(e2)
    ensures e1 == e2
  {
    ParseMessageOfMessage(e1);
    ParseMessageOfMessage(e2);
  }
}
