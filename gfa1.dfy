/** GFA 1.0 records and their text form: each record is one tab-separated
  * line that starts with its kind letter, and a document prints its headers,
  * segments, links, containments and paths in that order, one line each. */
module Gfa1 {
  import opened Text

  datatype Orientation = Forward | Backward

  /** `Display for Orientation`. */
  function OrientationText(o: Orientation): (s: string)
    ensures |s| == 1
  {
    match o
    case Forward => "+"
    case Backward => "-"
  }

  /** `Orientation::as_bool`: true exactly for the orientation written `+`. */
  function AsBool(o: Orientation): (b: bool)
    ensures b <==> OrientationText(o) == "+"
  {
    o == Forward
  }

  datatype Header = Header(version: string)

  datatype Segment = Segment(name: string, sequence: string, optionalFields: seq<string>)

  datatype Link = Link(
    fromSegment: string, fromOrient: Orientation,
    toSegment: string, toOrient: Orientation,
    overlap: string, optionalFields: seq<string>)

  datatype Containment = Containment(
    containerName: string, containerOrient: Orientation,
    containedName: string, containedOrient: Orientation,
    pos: nat, overlap: string, optionalFields: seq<string>)

  datatype Path = Path(pathName: string, segmentNames: seq<string>, overlaps: seq<string>)

  /** A parsed GFA 1.0 file. The comment lines the parser reads are kept in
    * `comments`; printing a document does not write them. */
  datatype Gfa = Gfa(
    headers: seq<Header>, segments: seq<Segment>, links: seq<Link>,
    containments: seq<Containment>, paths: seq<Path>, comments: seq<string>)

  /** One parsed line of a GFA 1.0 file. */
  datatype Line =
    | HeaderLine(header: Header)
    | SegmentLine(segment: Segment)
    | LinkLine(link: Link)
    | ContainmentLine(containment: Containment)
    | PathLine(path: Path)
    | CommentLine(comment: string)

  /** `Display for Header`. */
  function HeaderText(h: Header): (line: string)
    ensures |line| >= 2 && line[..2] == "H\t" && line[2..] == h.version
  {
    "H\t" + h.version
  }

  /** `Display for Segment`: the optional fields each followed by a tab. */
  function SegmentText(s: Segment): string
  {
    "S\t" + s.name + "\t" + s.sequence + "\t" + Terminated(s.optionalFields, "\t")
  }

  /** `Display for Link`. */
  function LinkText(l: Link): string
  {
    "L\t" + l.fromSegment + "\t" + OrientationText(l.fromOrient) + "\t" + l.toSegment + "\t"
      + OrientationText(l.toOrient) + "\t" + l.overlap + "\t" + Terminated(l.optionalFields, "\t")
  }

  /** `Display for Containment`: the position in decimal. */
  function ContainmentText(c: Containment): string
  {
    "C\t" + c.containerName + "\t" + OrientationText(c.containerOrient) + "\t" + c.containedName + "\t"
      + OrientationText(c.containedOrient) + "\t" + NatToString(c.pos) + "\t" + c.overlap + "\t"
      + Terminated(c.optionalFields, "\t")
  }

  /** `Display for Path`: every segment name and every overlap followed by a comma. */
  function PathText(p: Path): string
  {
    "P\t" + p.pathName + "\t" + Terminated(p.segmentNames, ",") + "\t" + Terminated(p.overlaps, ",")
  }

  function HeaderLines(hs: seq<Header>): (r: seq<string>)
    ensures |r| == |hs| && forall i :: 0 <= i < |hs| ==> r[i] == HeaderText(hs[i])
  {
    seq(|hs|, i requires 0 <= i < |hs| => HeaderText(hs[i]))
  }

  function SegmentLines(ss: seq<Segment>): (r: seq<string>)
    ensures |r| == |ss| && forall i :: 0 <= i < |ss| ==> r[i] == SegmentText(ss[i])
  {
    seq(|ss|, i requires 0 <= i < |ss| => SegmentText(ss[i]))
  }

  function LinkLines(ls: seq<Link>): (r: seq<string>)
    ensures |r| == |ls| && forall i :: 0 <= i < |ls| ==> r[i] == LinkText(ls[i])
  {
    seq(|ls|, i requires 0 <= i < |ls| => LinkText(ls[i]))
  }

  function ContainmentLines(cs: seq<Containment>): (r: seq<string>)
    ensures |r| == |cs| && forall i :: 0 <= i < |cs| ==> r[i] == ContainmentText(cs[i])
  {
    seq(|cs|, i requires 0 <= i < |cs| => ContainmentText(cs[i]))
  }

  function PathLines(ps: seq<Path>): (r: seq<string>)
    ensures |r| == |ps| && forall i :: 0 <= i < |ps| ==> r[i] == PathText(ps[i])
  {
    seq(|ps|, i requires 0 <= i < |ps| => PathText(ps[i]))
  }

  /** The lines of a document in print order. */
  function RecordLines(g: Gfa): seq<string>
  {
    HeaderLines(g.headers) + SegmentLines(g.segments) + LinkLines(g.links)
      + ContainmentLines(g.containments) + PathLines(g.paths)
  }

  /** `Display for GFA`: each section folded into its lines, each line followed
    * by a newline, the sections concatenated with nothing between them. */
  function GfaText(g: Gfa): string
  {
    Terminated(HeaderLines(g.headers), "\n") + Terminated(SegmentLines(g.segments), "\n")
      + Terminated(LinkLines(g.links), "\n") + Terminated(ContainmentLines(g.containments), "\n")
      + Terminated(PathLines(g.paths), "\n")
  }

  /** `GFA::new`. */
  function NewGfa(): (g: Gfa)
    ensures RecordLines(g) == [] && GfaText(g) == ""
  {
    Gfa([], [], [], [], [], [])
  }

  /** The text of a document is its record lines, each followed by one newline. */
  lemma GfaTextIsLines(g: Gfa)
    ensures GfaText(g) == Terminated(RecordLines(g), "\n")
  {
    var h, s, l, c, p := HeaderLines(g.headers), SegmentLines(g.segments), LinkLines(g.links),
      ContainmentLines(g.containments), PathLines(g.paths);
    TerminatedAppend(h + s + l + c, p, "\n");
    TerminatedAppend(h + s + l, c, "\n");
    TerminatedAppend(h + s, l, "\n");
    TerminatedAppend(h, s, "\n");
  }

  /** When no field holds a newline, splitting the printed document at
    * newlines gives back exactly its record lines, in section order. */
  lemma LinesOfGfaText(g: Gfa)
    requires NoneContains(RecordLines(g), '\n')
    ensures SplitTerminator(GfaText(g), '\n') == RecordLines(g)
  {
    GfaTextIsLines(g);
    SplitTerminatorOfTerminated(RecordLines(g), '\n');
  }
}
