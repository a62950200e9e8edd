/** GFA 2.0 records as the GFA 2.0 parser builds them: every field is kept as
  * the text it was read from, and the tags of a record are a list of
  * `TAG:TYPE:VALUE` strings. Each record prints as one tab-separated line
  * that starts with its kind letter. */
module Gfa2 {
  import opened Text

  datatype Header = Header(version: string, tags: seq<string>)

  datatype Segment = Segment(id: string, len: string, sequence: string, tags: seq<string>)

  datatype Fragment = Fragment(
    id: string, extRef: string, sbeg: string, send: string, fbeg: string, fend: string,
    alignment: string, tags: seq<string>)

  datatype Edge = Edge(
    id: string, sid1: string, sid2: string, beg1: string, end1: string, beg2: string, end2: string,
    alignment: string, tags: seq<string>)

  datatype Gap = Gap(id: string, sid1: string, sid2: string, dist: string, variance: string, tags: seq<string>)

  /** An ordered group (`O` line); `members` is the space-separated member field. */
  datatype GroupO = GroupO(id: string, members: seq<string>, tags: seq<string>)

  /** An unordered group (`U` line). */
  datatype GroupU = GroupU(id: string, members: seq<string>, tags: seq<string>)

  /** A parsed GFA 2.0 file. The parser also keeps the comment lines and the
    * lines of unknown kind (custom records); printing a document does not
    * write them. */
  datatype Gfa2 = Gfa2(
    headers: seq<Header>, segments: seq<Segment>, fragments: seq<Fragment>, edges: seq<Edge>,
    gaps: seq<Gap>, groupsO: seq<GroupO>, groupsU: seq<GroupU>,
    comments: seq<string>, customRecords: seq<string>)

  /** One parsed line of a GFA 2.0 file. */
  datatype Line =
    | HeaderLine(header: Header)
    | SegmentLine(segment: Segment)
    | FragmentLine(fragment: Fragment)
    | EdgeLine(edge: Edge)
    | GapLine(gap: Gap)
    | GroupOLine(groupO: GroupO)
    | GroupULine(groupU: GroupU)
    | CommentLine(comment: string)
    | CustomLine(record: string)

  /** `Display for Header`: the version, then every tag, each followed by a tab. */
  function HeaderText(h: Header): string
  {
    "H\t" + h.version + "\t" + Terminated(h.tags, "\t")
  }

  /** `Display for Segment`. */
  function SegmentText(s: Segment): string
  {
    "S\t" + s.id + "\t" + s.len + "\t" + s.sequence + "\t" + Terminated(s.tags, "\t")
  }

  /** `Display for Fragment`. */
  function FragmentText(f: Fragment): string
  {
    "F\t" + f.id + "\t" + f.extRef + "\t" + f.sbeg + "\t" + f.send + "\t" + f.fbeg + "\t" + f.fend
      + "\t" + f.alignment + "\t" + Terminated(f.tags, "\t")
  }

  /** `Display for Edge`. */
  function EdgeText(e: Edge): string
  {
    "E\t" + e.id + "\t" + e.sid1 + "\t" + e.sid2 + "\t" + e.beg1 + "\t" + e.end1 + "\t" + e.beg2
      + "\t" + e.end2 + "\t" + e.alignment + "\t" + Terminated(e.tags, "\t")
  }

  /** `Display for Gap`. */
  function GapText(g: Gap): string
  {
    "G\t" + g.id + "\t" + g.sid1 + "\t" + g.sid2 + "\t" + g.dist + "\t" + g.variance + "\t"
      + Terminated(g.tags, "\t")
  }

  /** `Display for GroupO` as written: the id, then every member followed by
    * one space, then a tab, then every tag followed by a tab. The space after
    * the last member keeps the parser from reading the tags back (see
    * `Gfa2RoundTrip.GroupOTagsLost`). */
  function GroupOTextAsWritten(o: GroupO): string
  {
    "O\t" + o.id + "\t" + Terminated(o.members, " ") + "\t" + Terminated(o.tags, "\t")
  }

  /** `Display for GroupO` corrected: the members separated by single spaces,
    * the layout the parser and the stream writer use. This is not the
    * source's text; `GroupOTextAsWritten` is. */
  function GroupOText(o: GroupO): string
  {
    "O\t" + o.id + "\t" + Joined(o.members, " ") + "\t" + Terminated(o.tags, "\t")
  }

  /** `Display for GroupU` as written, laid out as `GroupOTextAsWritten`. */
  function GroupUTextAsWritten(u: GroupU): string
  {
    "U\t" + u.id + "\t" + Terminated(u.members, " ") + "\t" + Terminated(u.tags, "\t")
  }

  /** `Display for GroupU` corrected: the members separated by single spaces.
    * This is not the source's text; `GroupUTextAsWritten` is. */
  function GroupUText(u: GroupU): string
  {
    "U\t" + u.id + "\t" + Joined(u.members, " ") + "\t" + Terminated(u.tags, "\t")
  }

  function HeaderLines(hs: seq<Header>): (r: seq<string>)
    ensures |r| == |hs| && forall i :: 0 <= i < |hs| ==> r[i] == HeaderText(hs[i])
  {
    seq(|hs|, i requires 0 <= i < |hs| => HeaderText(hs[i]))
  }

  function SegmentLines(ss: seq<Segment>): (r: seq<string>)
    ensures |r| == |ss| && forall i :: 0 <= i < |ss| ==> r[i] == SegmentText(ss[i])
  {
    seq(|ss|, i requires 0 <= i < |ss| => SegmentText(ss[i]))
  }

  function FragmentLines(fs: seq<Fragment>): (r: seq<string>)
    ensures |r| == |fs| && forall i :: 0 <= i < |fs| ==> r[i] == FragmentText(fs[i])
  {
    seq(|fs|, i requires 0 <= i < |fs| => FragmentText(fs[i]))
  }

  function EdgeLines(es: seq<Edge>): (r: seq<string>)
    ensures |r| == |es| && forall i :: 0 <= i < |es| ==> r[i] == EdgeText(es[i])
  {
    seq(|es|, i requires 0 <= i < |es| => EdgeText(es[i]))
  }

  function GapLines(gs: seq<Gap>): (r: seq<string>)
    ensures |r| == |gs| && forall i :: 0 <= i < |gs| ==> r[i] == GapText(gs[i])
  {
    seq(|gs|, i requires 0 <= i < |gs| => GapText(gs[i]))
  }

  /** The ordered-group lines `Display for GFA2` writes: the source's own
    * group display, with a space after the last member. */
  function GroupOLines(os: seq<GroupO>): (r: seq<string>)
    ensures |r| == |os| && forall i :: 0 <= i < |os| ==> r[i] == GroupOTextAsWritten(os[i])
  {
    seq(|os|, i requires 0 <= i < |os| => GroupOTextAsWritten(os[i]))
  }

  /** The unordered-group lines `Display for GFA2` writes. */
  function GroupULines(us: seq<GroupU>): (r: seq<string>)
    ensures |r| == |us| && forall i :: 0 <= i < |us| ==> r[i] == GroupUTextAsWritten(us[i])
  {
    seq(|us|, i requires 0 <= i < |us| => GroupUTextAsWritten(us[i]))
  }

  /** The ordered-group lines in the corrected layout. */
  function CorrectedGroupOLines(os: seq<GroupO>): (r: seq<string>)
    ensures |r| == |os| && forall i :: 0 <= i < |os| ==> r[i] == GroupOText(os[i])
  {
    seq(|os|, i requires 0 <= i < |os| => GroupOText(os[i]))
  }

  /** The unordered-group lines in the corrected layout. */
  function CorrectedGroupULines(us: seq<GroupU>): (r: seq<string>)
    ensures |r| == |us| && forall i :: 0 <= i < |us| ==> r[i] == GroupUText(us[i])
  {
    seq(|us|, i requires 0 <= i < |us| => GroupUText(us[i]))
  }

  /** The lines of the five sections before the groups, in print order. */
  function LeadLines(g: Gfa2): seq<string>
  {
    HeaderLines(g.headers) + SegmentLines(g.segments) + FragmentLines(g.fragments) + EdgeLines(g.edges)
      + GapLines(g.gaps)
  }

  /** The record lines of a document, in print order, as the source writes them. */
  function RecordLines(g: Gfa2): seq<string>
  {
    LeadLines(g) + GroupOLines(g.groupsO) + GroupULines(g.groupsU)
  }

  /** The record lines of a document with the group lines corrected. */
  function CorrectedRecordLines(g: Gfa2): seq<string>
  {
    LeadLines(g) + CorrectedGroupOLines(g.groupsO) + CorrectedGroupULines(g.groupsU)
  }

  /** `Display for GFA2`: each section is its record lines, each followed by a
    * newline, and one more newline separates consecutive sections. */
  function Gfa2Text(g: Gfa2): string
  {
    Terminated(HeaderLines(g.headers), "\n") + "\n" + Terminated(SegmentLines(g.segments), "\n") + "\n"
      + Terminated(FragmentLines(g.fragments), "\n") + "\n" + Terminated(EdgeLines(g.edges), "\n") + "\n"
      + Terminated(GapLines(g.gaps), "\n") + "\n" + Terminated(GroupOLines(g.groupsO), "\n") + "\n"
      + Terminated(GroupULines(g.groupsU), "\n")
  }

  /** `GFA2::new`. */
  function NewGfa2(): (g: Gfa2)
    ensures RecordLines(g) == [] && CorrectedRecordLines(g) == [] && Gfa2Text(g) == "\n\n\n\n\n\n"
  {
    Gfa2([], [], [], [], [], [], [], [], [])
  }
}
