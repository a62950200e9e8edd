/** The GFA 2.0 stream writer of `print_gfa_2.rs`: every record written as
  * one tab-separated line with its optional fields after it, and a document
  * written section by section, one line per record. */
module PrintGfa2 {
  import opened Text
  import opened Tag
  import Gfa2

  /** A header of the generic `GFA2<N, T>`: an optional version and parsed
    * optional fields. */
  datatype Header = Header(version: Option<string>, tags: seq<OptField>)

  /** The records of `GFA2<N, T>`, each field as the text its `Display`
    * writes. */
  datatype Segment = Segment(id: string, len: string, sequence: string, tags: seq<OptField>)

  datatype Fragment = Fragment(
    id: string, extRef: string, sbeg: string, send: string, fbeg: string, fend: string,
    alignment: string, tags: seq<OptField>)

  datatype Edge = Edge(
    id: string, sid1: string, sid2: string, beg1: string, end1: string, beg2: string, end2: string,
    alignment: string, tags: seq<OptField>)

  datatype Gap = Gap(id: string, sid1: string, sid2: string, dist: string, variance: string, tags: seq<OptField>)

  /** An O- or U-group: its id, its member field and its optional fields. */
  datatype Group = Group(id: string, varField: string, tags: seq<OptField>)

  /** The sections `print_gfa2` writes; comments and custom records are not
    * among them. */
  datatype Doc = Doc(
    headers: seq<Header>, segments: seq<Segment>, fragments: seq<Fragment>, edges: seq<Edge>,
    gaps: seq<Gap>, groupsO: seq<Group>, groupsU: seq<Group>)

  /** One record of any kind. */
  datatype Record =
    | HeaderRec(h: Header)
    | SegmentRec(s: Segment)
    | FragmentRec(f: Fragment)
    | EdgeRec(e: Edge)
    | GapRec(g: Gap)
    | GroupORec(o: Group)
    | GroupURec(u: Group)

  /** The text of each optional field. */
  function TagTexts(fs: seq<OptField>): (r: seq<string>)
    ensures |r| == |fs| && forall i :: 0 <= i < |fs| ==> r[i] == Display(fs[i])
  {
    seq(|fs|, i requires 0 <= i < |fs| => Display(fs[i]))
  }

  /** What `write_optional_fields` writes: a tab before every field. */
  function OptFieldsText(fs: seq<OptField>): string
  {
    Prefixed(TagTexts(fs), "\t")
  }

  /** The fixed fields of a record's line, up to its optional fields. */
  function Lead(r: Record): string
  {
    match r
    case HeaderRec(h) => "H" + (if h.version.Some? then "\tVN:Z:" + h.version.value else "")
    case SegmentRec(s) => "S\t" + s.id + "\t" + s.len + "\t" + s.sequence
    case FragmentRec(f) =>
      "F\t" + f.id + "\t" + f.extRef + "\t" + f.sbeg + "\t" + f.send + "\t" + f.fbeg + "\t" + f.fend
        + "\t" + f.alignment
    case EdgeRec(e) =>
      "E\t" + e.id + "\t" + e.sid1 + "\t" + e.sid2 + "\t" + e.beg1 + "\t" + e.end1 + "\t" + e.beg2
        + "\t" + e.end2 + "\t" + e.alignment
    case GapRec(g) => "G\t" + g.id + "\t" + g.sid1 + "\t" + g.sid2 + "\t" + g.dist + "\t" + g.variance
    case GroupORec(o) => "O\t" + o.id + "\t" + o.varField
    case GroupURec(u) => "U\t" + u.id + "\t" + u.varField
  }

  /** The optional fields of a record. */
  function Tags(r: Record): seq<OptField>
  {
    match r
    case HeaderRec(h) => h.tags
    case SegmentRec(s) => s.tags
    case FragmentRec(f) => f.tags
    case EdgeRec(e) => e.tags
    case GapRec(g) => g.tags
    case GroupORec(o) => o.tags
    case GroupURec(u) => u.tags
  }

  /** The line `write_header`, `write_segment`, ... write for a record. */
  function RecordLine(r: Record): string
  {
    Lead(r) + OptFieldsText(Tags(r))
  }

  /** The fixed columns of a record's line: its kind letter, then the
    * fields `Lead` writes. */
  function Fixed(r: Record): (cols: seq<string>)
    ensures |cols| > 0
  {
    match r
    case HeaderRec(h) => ["H"] + (if h.version.Some? then ["VN:Z:" + h.version.value] else [])
    case SegmentRec(s) => ["S", s.id, s.len, s.sequence]
    case FragmentRec(f) => ["F", f.id, f.extRef, f.sbeg, f.send, f.fbeg, f.fend, f.alignment]
    case EdgeRec(e) => ["E", e.id, e.sid1, e.sid2, e.beg1, e.end1, e.beg2, e.end2, e.alignment]
    case GapRec(g) => ["G", g.id, g.sid1, g.sid2, g.dist, g.variance]
    case GroupORec(o) => ["O", o.id, o.varField]
    case GroupURec(u) => ["U", u.id, u.varField]
  }

  /** The columns of a record's line, from its kind letter to its last
    * optional field. */
  function Columns(r: Record): (cols: seq<string>)
    ensures |cols| > 0 && cols[0] == [KindLetter(r)]
  {
    Fixed(r) + TagTexts(Tags(r))
  }

  /** The letter a record's line starts with. */
  function KindLetter(r: Record): char
  {
    match r
    case HeaderRec(_) => 'H'
    case SegmentRec(_) => 'S'
    case FragmentRec(_) => 'F'
    case EdgeRec(_) => 'E'
    case GapRec(_) => 'G'
    case GroupORec(_) => 'O'
    case GroupURec(_) => 'U'
  }

  /** The lines of a list of records, in order. */
  function LinesOf(rs: seq<Record>): (r: seq<string>)
    ensures |r| == |rs| && forall i :: 0 <= i < |rs| ==> r[i] == RecordLine(rs[i])
  {
    seq(|rs|, i requires 0 <= i < |rs| => RecordLine(rs[i]))
  }

  function HeaderRecs(hs: seq<Header>): (r: seq<Record>)
    ensures |r| == |hs| && forall i :: 0 <= i < |hs| ==> r[i] == HeaderRec(hs[i])
  {
    seq(|hs|, i requires 0 <= i < |hs| => HeaderRec(hs[i]))
  }

  function SegmentRecs(ss: seq<Segment>): (r: seq<Record>)
    ensures |r| == |ss| && forall i :: 0 <= i < |ss| ==> r[i] == SegmentRec(ss[i])
  {
    seq(|ss|, i requires 0 <= i < |ss| => SegmentRec(ss[i]))
  }

  function FragmentRecs(fs: seq<Fragment>): (r: seq<Record>)
    ensures |r| == |fs| && forall i :: 0 <= i < |fs| ==> r[i] == FragmentRec(fs[i])
  {
    seq(|fs|, i requires 0 <= i < |fs| => FragmentRec(fs[i]))
  }

  function EdgeRecs(es: seq<Edge>): (r: seq<Record>)
    ensures |r| == |es| && forall i :: 0 <= i < |es| ==> r[i] == EdgeRec(es[i])
  {
    seq(|es|, i requires 0 <= i < |es| => EdgeRec(es[i]))
  }

  function GapRecs(gs: seq<Gap>): (r: seq<Record>)
    ensures |r| == |gs| && forall i :: 0 <= i < |gs| ==> r[i] == GapRec(gs[i])
  {
    seq(|gs|, i requires 0 <= i < |gs| => GapRec(gs[i]))
  }

  function GroupORecs(os: seq<Group>): (r: seq<Record>)
    ensures |r| == |os| && forall i :: 0 <= i < |os| ==> r[i] == GroupORec(os[i])
  {
    seq(|os|, i requires 0 <= i < |os| => GroupORec(os[i]))
  }

  function GroupURecs(us: seq<Group>): (r: seq<Record>)
    ensures |r| == |us| && forall i :: 0 <= i < |us| ==> r[i] == GroupURec(us[i])
  {
    seq(|us|, i requires 0 <= i < |us| => GroupURec(us[i]))
  }

  /** The records of a document in the order `print_gfa2` writes them. */
  function Records(d: Doc): seq<Record>
  {
    HeaderRecs(d.headers) + SegmentRecs(d.segments) + FragmentRecs(d.fragments) + EdgeRecs(d.edges)
      + GapRecs(d.gaps) + GroupORecs(d.groupsO) + GroupURecs(d.groupsU)
  }

  /** What `print_gfa2` writes: every record's line followed by a newline. */
  function DocText(d: Doc): string
  {
    Terminated(LinesOf(Records(d)), "\n")
  }

  // ---------------------------------------------------------------------
  // The stream
  // ---------------------------------------------------------------------

  /** A `fmt::Write` stream: the text written to it so far. */
  class Stream {
    var text: string

    constructor()
      ensures text == ""
    {
      text := "";
    }

    /** `write!`: appends to the text. */
    method Write(s: string)
      modifies this
      ensures text == old(text) + s
    {
      text := text + s;
    }
  }

  /** `write_optional_fields`: each field after a tab, in order. */
  method WriteOptionalFields(fs: seq<OptField>, stream: Stream)
    modifies stream
    ensures stream.text == old(stream.text) + OptFieldsText(fs)
  {
    var i := 0;
    while i < |fs|
      invariant 0 <= i <= |fs|
      invariant stream.text == old(stream.text) + Prefixed(TagTexts(fs)[..i], "\t")
    {
      PrefixedSnoc(TagTexts(fs)[..i], Display(fs[i]), "\t");
      assert TagTexts(fs)[..i + 1] == TagTexts(fs)[..i] + [Display(fs[i])];
      stream.Write("\t" + Display(fs[i]));
      i := i + 1;
    }
    assert TagTexts(fs)[..i] == TagTexts(fs);
  }

  /** `write_header`: `H`, the version as a `VN:Z:` field when there is one,
    * then the optional fields. */
  method WriteHeader(h: Header, stream: Stream)
    modifies stream
    ensures stream.text == old(stream.text) + RecordLine(HeaderRec(h))
  {
    var version := if h.version.Some? then "\tVN:Z:" + h.version.value else "";
    var lead := "H" + version;
    assert lead == Lead(HeaderRec(h));
    stream.Write(lead);
    WriteOptionalFields(h.tags, stream);
  }

  method WriteSegment(s: Segment, stream: Stream)
    modifies stream
    ensures stream.text == old(stream.text) + RecordLine(SegmentRec(s))
  {
    var lead := "S\t" + s.id + "\t" + s.len + "\t" + s.sequence;
    assert lead == Lead(SegmentRec(s));
    stream.Write(lead);
    WriteOptionalFields(s.tags, stream);
  }

  method WriteFragment(f: Fragment, stream: Stream)
    modifies stream
    ensures stream.text == old(stream.text) + RecordLine(FragmentRec(f))
  {
    var lead := "F\t" + f.id + "\t" + f.extRef + "\t" + f.sbeg + "\t" + f.send + "\t" + f.fbeg + "\t" + f.fend
      + "\t" + f.alignment;
    assert lead == Lead(FragmentRec(f));
    stream.Write(lead);
    WriteOptionalFields(f.tags, stream);
  }

  method WriteEdge(e: Edge, stream: Stream)
    modifies stream
    ensures stream.text == old(stream.text) + RecordLine(EdgeRec(e))
  {
    var lead := "E\t" + e.id + "\t" + e.sid1 + "\t" + e.sid2 + "\t" + e.beg1 + "\t" + e.end1 + "\t" + e.beg2
      + "\t" + e.end2 + "\t" + e.alignment;
    assert lead == Lead(EdgeRec(e));
    stream.Write(lead);
    WriteOptionalFields(e.tags, stream);
  }

  method WriteGap(g: Gap, stream: Stream)
    modifies stream
    ensures stream.text == old(stream.text) + RecordLine(GapRec(g))
  {
    var lead := "G\t" + g.id + "\t" + g.sid1 + "\t" + g.sid2 + "\t" + g.dist + "\t" + g.variance;
    assert lead == Lead(GapRec(g));
    stream.Write(lead);
    WriteOptionalFields(g.tags, stream);
  }

  method WriteOgroup(o: Group, stream: Stream)
    modifies stream
    ensures stream.text == old(stream.text) + RecordLine(GroupORec(o))
  {
    var lead := "O\t" + o.id + "\t" + o.varField;
    assert lead == Lead(GroupORec(o));
    stream.Write(lead);
    WriteOptionalFields(o.tags, stream);
  }

  method WriteUgroup(u: Group, stream: Stream)
    modifies stream
    ensures stream.text == old(stream.text) + RecordLine(GroupURec(u))
  {
    var lead := "U\t" + u.id + "\t" + u.varField;
    assert lead == Lead(GroupURec(u));
    stream.Write(lead);
    WriteOptionalFields(u.tags, stream);
  }

  /** The writer for one record, chosen by its kind. */
  method WriteRecord(r: Record, stream: Stream)
    modifies stream
    ensures stream.text == old(stream.text) + RecordLine(r)
  {
    match r {
      case HeaderRec(h) => WriteHeader(h, stream);
      case SegmentRec(s) => WriteSegment(s, stream);
      case FragmentRec(f) => WriteFragment(f, stream);
      case EdgeRec(e) => WriteEdge(e, stream);
      case GapRec(g) => WriteGap(g, stream);
      case GroupORec(o) => WriteOgroup(o, stream);
      case GroupURec(u) => WriteUgroup(u, stream);
    }
  }

  /** One `for_each` of `print_gfa2`: every record of a section, each
    * followed by a newline. */
  method WriteSection(rs: seq<Record>, stream: Stream)
    modifies stream
    ensures stream.text == old(stream.text) + Terminated(LinesOf(rs), "\n")
  {
    var i := 0;
    while i < |rs|
      invariant 0 <= i <= |rs|
      invariant stream.text == old(stream.text) + Terminated(LinesOf(rs[..i]), "\n")
    {
      WriteRecord(rs[i], stream);
      stream.Write("\n");
      SectionStep(old(stream.text), stream.text, rs, i);
      i := i + 1;
    }
    assert rs[..i] == rs;
  }

  /** The text of a section's first `i + 1` records. */
  lemma SectionStep(start: string, text: string, rs: seq<Record>, i: nat)
    requires i < |rs|
    requires text == start + Terminated(LinesOf(rs[..i]), "\n") + RecordLine(rs[i]) + "\n"
    ensures text == start + Terminated(LinesOf(rs[..i + 1]), "\n")
  {
    LinesOfSnoc(rs, i);
    WrittenSnoc(start, text, LinesOf(rs[..i]), RecordLine(rs[i]));
  }

  lemma LinesOfSnoc(rs: seq<Record>, i: nat)
    requires i < |rs|
    ensures LinesOf(rs[..i + 1]) == LinesOf(rs[..i]) + [RecordLine(rs[i])]
  {
    assert LinesOf(rs[..i + 1]) == LinesOf(rs[..i]) + [RecordLine(rs[i])];
  }

  /** Text written after some lines, then one more line and its newline. */
  lemma WrittenSnoc(start: string, text: string, lines: seq<string>, line: string)
    requires text == start + Terminated(lines, "\n") + line + "\n"
    ensures text == start + Terminated(lines + [line], "\n")
  {
    TerminatedSnoc(lines, line, "\n");
  }

  /** One more item written with its separator after it. */
  lemma TerminatedSnoc(xs: seq<string>, x: string, sep: string)
    ensures Terminated(xs + [x], sep) == Terminated(xs, sep) + x + sep
  {
    TerminatedAppend(xs, [x], sep);
    assert [x][1..] == [];
  }

  /** One more section after the records written so far. */
  lemma SectionAppended(text: string, start: string, done: seq<Record>, rs: seq<Record>)
    requires text == start + Terminated(LinesOf(done), "\n") + Terminated(LinesOf(rs), "\n")
    ensures text == start + Terminated(LinesOf(done + rs), "\n")
  {
    LinesOfAppend(done, rs);
    TerminatedAppend(LinesOf(done), LinesOf(rs), "\n");
  }

  lemma LinesOfAppend(a: seq<Record>, b: seq<Record>)
    ensures LinesOf(a + b) == LinesOf(a) + LinesOf(b)
  {
    assert LinesOf(a + b) == LinesOf(a) + LinesOf(b);
  }

  /** `print_gfa2`: headers, segments, fragments, edges, gaps, O-groups,
    * U-groups, in that order. */
  method PrintGfa2(d: Doc, stream: Stream)
    modifies stream
    ensures stream.text == old(stream.text) + DocText(d)
  {
    ghost var start := stream.text;
    var section := HeaderRecs(d.headers);
    WriteSection(section, stream);
    ghost var done := section;
    section := SegmentRecs(d.segments);
    WriteSection(section, stream);
    SectionAppended(stream.text, start, done, section);
    done := done + section;
    section := FragmentRecs(d.fragments);
    WriteSection(section, stream);
    SectionAppended(stream.text, start, done, section);
    done := done + section;
    section := EdgeRecs(d.edges);
    WriteSection(section, stream);
    SectionAppended(stream.text, start, done, section);
    done := done + section;
    section := GapRecs(d.gaps);
    WriteSection(section, stream);
    SectionAppended(stream.text, start, done, section);
    done := done + section;
    section := GroupORecs(d.groupsO);
    WriteSection(section, stream);
    SectionAppended(stream.text, start, done, section);
    done := done + section;
    section := GroupURecs(d.groupsU);
    WriteSection(section, stream);
    SectionAppended(stream.text, start, done, section);
    done := done + section;
    assert done == Records(d);
  }

  /** `gfa2_to_string`: what `print_gfa2` writes to an empty string. */
  method Gfa2ToString(d: Doc) returns (r: string)
    ensures r == DocText(d)
  {
    var stream := new Stream();
    PrintGfa2(d, stream);
    r := stream.text;
  }

  // ---------------------------------------------------------------------
  // What the printed text holds
  // ---------------------------------------------------------------------

  /** The fixed fields are the kind letter, then every other fixed column
    * after a tab. */
  lemma LeadIsPrefixed(r: Record)
    ensures Lead(r) == Fixed(r)[0] + Prefixed(Fixed(r)[1..], "\t")
  {
    match r {
      case HeaderRec(h) =>
      case SegmentRec(s) => SegmentLeadIsPrefixed(s);
      case FragmentRec(f) => FragmentLeadIsPrefixed(f);
      case EdgeRec(e) => EdgeLeadIsPrefixed(e);
      case GapRec(g) => GapLeadIsPrefixed(g);
      case GroupORec(o) => GroupOLeadIsPrefixed(o);
      case GroupURec(u) => GroupULeadIsPrefixed(u);
    }
  }

  lemma SegmentLeadIsPrefixed(s: Segment)
    ensures Lead(SegmentRec(s)) == "S" + Prefixed([s.id, s.len, s.sequence], "\t")
  {
    var xs := [s.id, s.len, s.sequence];
    assert xs[..0] == [];
    PrefixedStep(xs, 0);
    assert "S\t" + s.id == "S" + Prefixed(xs[..1], "\t");
    PrefixedStep(xs, 1);
    assert "S\t" + s.id + "\t" + s.len == "S" + Prefixed(xs[..2], "\t");
    PrefixedStep(xs, 2);
    assert "S\t" + s.id + "\t" + s.len + "\t" + s.sequence == "S" + Prefixed(xs[..3], "\t");
    assert xs[..3] == xs;
  }

  lemma FragmentLeadIsPrefixed(f: Fragment)
    ensures Lead(FragmentRec(f)) == "F" + Prefixed([f.id, f.extRef, f.sbeg, f.send, f.fbeg, f.fend, f.alignment], "\t")
  {
    var xs := [f.id, f.extRef, f.sbeg, f.send, f.fbeg, f.fend, f.alignment];
    assert xs[..0] == [];
    PrefixedStep(xs, 0);
    assert "F\t" + f.id == "F" + Prefixed(xs[..1], "\t");
    PrefixedStep(xs, 1);
    assert "F\t" + f.id + "\t" + f.extRef == "F" + Prefixed(xs[..2], "\t");
    PrefixedStep(xs, 2);
    assert "F\t" + f.id + "\t" + f.extRef + "\t" + f.sbeg == "F" + Prefixed(xs[..3], "\t");
    PrefixedStep(xs, 3);
    assert "F\t" + f.id + "\t" + f.extRef + "\t" + f.sbeg + "\t" + f.send == "F" + Prefixed(xs[..4], "\t");
    PrefixedStep(xs, 4);
    assert "F\t" + f.id + "\t" + f.extRef + "\t" + f.sbeg + "\t" + f.send + "\t" + f.fbeg == "F" + Prefixed(xs[..5], "\t");
    PrefixedStep(xs, 5);
    assert "F\t" + f.id + "\t" + f.extRef + "\t" + f.sbeg + "\t" + f.send + "\t" + f.fbeg + "\t" + f.fend == "F" + Prefixed(xs[..6], "\t");
    PrefixedStep(xs, 6);
    assert "F\t" + f.id + "\t" + f.extRef + "\t" + f.sbeg + "\t" + f.send + "\t" + f.fbeg + "\t" + f.fend + "\t" + f.alignment == "F" + Prefixed(xs[..7], "\t");
    assert xs[..7] == xs;
  }

  lemma EdgeLeadIsPrefixed(e: Edge)
    ensures Lead(EdgeRec(e)) == "E" + Prefixed([e.id, e.sid1, e.sid2, e.beg1, e.end1, e.beg2, e.end2, e.alignment], "\t")
  {
    var xs := [e.id, e.sid1, e.sid2, e.beg1, e.end1, e.beg2, e.end2, e.alignment];
    assert xs[..0] == [];
    PrefixedStep(xs, 0);
    assert "E\t" + e.id == "E" + Prefixed(xs[..1], "\t");
    PrefixedStep(xs, 1);
    assert "E\t" + e.id + "\t" + e.sid1 == "E" + Prefixed(xs[..2], "\t");
    PrefixedStep(xs, 2);
    assert "E\t" + e.id + "\t" + e.sid1 + "\t" + e.sid2 == "E" + Prefixed(xs[..3], "\t");
    PrefixedStep(xs, 3);
    assert "E\t" + e.id + "\t" + e.sid1 + "\t" + e.sid2 + "\t" + e.beg1 == "E" + Prefixed(xs[..4], "\t");
    PrefixedStep(xs, 4);
    assert "E\t" + e.id + "\t" + e.sid1 + "\t" + e.sid2 + "\t" + e.beg1 + "\t" + e.end1 == "E" + Prefixed(xs[..5], "\t");
    PrefixedStep(xs, 5);
    assert "E\t" + e.id + "\t" + e.sid1 + "\t" + e.sid2 + "\t" + e.beg1 + "\t" + e.end1 + "\t" + e.beg2 == "E" + Prefixed(xs[..6], "\t");
    PrefixedStep(xs, 6);
    assert "E\t" + e.id + "\t" + e.sid1 + "\t" + e.sid2 + "\t" + e.beg1 + "\t" + e.end1 + "\t" + e.beg2 + "\t" + e.end2 == "E" + Prefixed(xs[..7], "\t");
    PrefixedStep(xs, 7);
    assert "E\t" + e.id + "\t" + e.sid1 + "\t" + e.sid2 + "\t" + e.beg1 + "\t" + e.end1 + "\t" + e.beg2 + "\t" + e.end2 + "\t" + e.alignment == "E" + Prefixed(xs[..8], "\t");
    assert xs[..8] == xs;
  }

  lemma GapLeadIsPrefixed(g: Gap)
    ensures Lead(GapRec(g)) == "G" + Prefixed([g.id, g.sid1, g.sid2, g.dist, g.variance], "\t")
  {
    var xs := [g.id, g.sid1, g.sid2, g.dist, g.variance];
    assert xs[..0] == [];
    PrefixedStep(xs, 0);
    assert "G\t" + g.id == "G" + Prefixed(xs[..1], "\t");
    PrefixedStep(xs, 1);
    assert "G\t" + g.id + "\t" + g.sid1 == "G" + Prefixed(xs[..2], "\t");
    PrefixedStep(xs, 2);
    assert "G\t" + g.id + "\t" + g.sid1 + "\t" + g.sid2 == "G" + Prefixed(xs[..3], "\t");
    PrefixedStep(xs, 3);
    assert "G\t" + g.id + "\t" + g.sid1 + "\t" + g.sid2 + "\t" + g.dist == "G" + Prefixed(xs[..4], "\t");
    PrefixedStep(xs, 4);
    assert "G\t" + g.id + "\t" + g.sid1 + "\t" + g.sid2 + "\t" + g.dist + "\t" + g.variance == "G" + Prefixed(xs[..5], "\t");
    assert xs[..5] == xs;
  }

  lemma GroupOLeadIsPrefixed(o: Group)
    ensures Lead(GroupORec(o)) == "O" + Prefixed([o.id, o.varField], "\t")
  {
    var xs := [o.id, o.varField];
    assert xs[..0] == [];
    PrefixedStep(xs, 0);
    assert "O\t" + o.id == "O" + Prefixed(xs[..1], "\t");
    PrefixedStep(xs, 1);
    assert "O\t" + o.id + "\t" + o.varField == "O" + Prefixed(xs[..2], "\t");
    assert xs[..2] == xs;
  }

  lemma GroupULeadIsPrefixed(u: Group)
    ensures Lead(GroupURec(u)) == "U" + Prefixed([u.id, u.varField], "\t")
  {
    var xs := [u.id, u.varField];
    assert xs[..0] == [];
    PrefixedStep(xs, 0);
    assert "U\t" + u.id == "U" + Prefixed(xs[..1], "\t");
    PrefixedStep(xs, 1);
    assert "U\t" + u.id + "\t" + u.varField == "U" + Prefixed(xs[..2], "\t");
    assert xs[..2] == xs;
  }


  /** Prefixing one more item of a list. */
  lemma PrefixedStep(xs: seq<string>, k: nat)
    requires k < |xs|
    ensures Prefixed(xs[..k + 1], "\t") == Prefixed(xs[..k], "\t") + "\t" + xs[k]
  {
    assert xs[..k + 1] == xs[..k] + [xs[k]];
    PrefixedSnoc(xs[..k], xs[k], "\t");
  }

  /** A record's line is its columns with a tab between consecutive ones. */
  lemma LineIsJoined(r: Record)
    ensures RecordLine(r) == Joined(Columns(r), "\t")
  {
    LeadIsPrefixed(r);
    JoinedOfLead(RecordLine(r), Lead(r), Fixed(r), TagTexts(Tags(r)), Columns(r));
  }

  /** Fixed columns joined by tabs, then optional fields each after a tab,
    * are all the columns joined by tabs. */
  lemma JoinedOfLead(line: string, lead: string, fixed: seq<string>, tags: seq<string>, cols: seq<string>)
    requires fixed != [] && lead == fixed[0] + Prefixed(fixed[1..], "\t")
    requires line == lead + Prefixed(tags, "\t") && cols == fixed + tags
    ensures line == Joined(cols, "\t")
  {
    var head, front, back := fixed[0], Prefixed(fixed[1..], "\t"), Prefixed(tags, "\t");
    assert Joined(cols, "\t") == head + Prefixed(cols[1..], "\t");
    assert Prefixed(cols[1..], "\t") == front + back by {
      assert cols[1..] == fixed[1..] + tags;
      PrefixedAppend(fixed[1..], tags, "\t");
    }
    ConcatAssociates(head, front, back);
  }



  /** Split at tabs, a line gives back its record's columns, as long as no
    * field or optional field holds a tab. */
  lemma LineSplits(r: Record)
    requires NoneContains(Columns(r), '\t')
    ensures Split(RecordLine(r), '\t') == Columns(r)
  {
    LineIsJoined(r);
    SplitOfJoined(Columns(r), '\t');
  }

  /** A character other than a tab is in a record's line only when it is in
    * one of its columns. */
  lemma AbsentFromLine(r: Record, c: char)
    requires c != '\t' && NoneContains(Columns(r), c)
    ensures c !in RecordLine(r)
  {
    LineIsJoined(r);
    var cols := Columns(r);
    assert c !in cols[0];
    assert NoneContains(cols[1..], c) by {
      forall i | 0 <= i < |cols| - 1 ensures c !in cols[1..][i] {
        assert cols[1..][i] == cols[i + 1];
      }
    }
    AbsentFromPrefixed(cols[1..], "\t", c);
  }

  /** A record whose columns hold neither a tab nor a newline. */
  predicate Plain(r: Record)
  {
    NoneContains(Columns(r), '\t') && NoneContains(Columns(r), '\n')
  }

  /** The printed text of a document whose records are all plain splits,
    * at newlines, into one line per record, in order, and each line splits,
    * at tabs, into that record's columns. */
  lemma DocumentReadsBack(d: Doc)
    requires forall i :: 0 <= i < |Records(d)| ==> Plain(Records(d)[i])
    ensures var lines := SplitTerminator(DocText(d), '\n');
      |lines| == |Records(d)| &&
      forall i :: 0 <= i < |lines| ==> Split(lines[i], '\t') == Columns(Records(d)[i])
  {
    var rs := Records(d);
    var lines := LinesOf(rs);
    forall i | 0 <= i < |lines|
      ensures '\n' !in lines[i] && Split(lines[i], '\t') == Columns(rs[i])
    {
      AbsentFromLine(rs[i], '\n');
      LineSplits(rs[i]);
    }
    SplitTerminatorOfTerminated(lines, '\n');
  }

  /** The `Display` text of the same record in the `Gfa2` model, groups
    * included as the source writes them; a header needs a version to have one. */
  function DisplayText(r: Record): string
    requires r.HeaderRec? ==> r.h.version.Some?
  {
    match r
    case HeaderRec(h) => Gfa2.HeaderText(Gfa2.Header("VN:Z:" + h.version.value, TagTexts(h.tags)))
    case SegmentRec(s) => Gfa2.SegmentText(Gfa2.Segment(s.id, s.len, s.sequence, TagTexts(s.tags)))
    case FragmentRec(f) =>
      Gfa2.FragmentText(Gfa2.Fragment(f.id, f.extRef, f.sbeg, f.send, f.fbeg, f.fend, f.alignment, TagTexts(f.tags)))
    case EdgeRec(e) =>
      Gfa2.EdgeText(Gfa2.Edge(e.id, e.sid1, e.sid2, e.beg1, e.end1, e.beg2, e.end2, e.alignment, TagTexts(e.tags)))
    case GapRec(g) => Gfa2.GapText(Gfa2.Gap(g.id, g.sid1, g.sid2, g.dist, g.variance, TagTexts(g.tags)))
    case GroupORec(o) => Gfa2.GroupOTextAsWritten(Gfa2.GroupO(o.id, [o.varField], TagTexts(o.tags)))
    case GroupURec(u) => Gfa2.GroupUTextAsWritten(Gfa2.GroupU(u.id, [u.varField], TagTexts(u.tags)))
  }

  /** An ordered or unordered group. */
  predicate IsGroup(r: Record)
  {
    r.GroupORec? || r.GroupURec?
  }

  /** What `Display` writes between the fixed fields and the first tab: a
    * space after a group's member field, nothing otherwise. */
  function DisplayGap(r: Record): string
  {
    if IsGroup(r) then " " else ""
  }

  /** The stream writer and `Display` write the same text, except that
    * `Display` ends every record with a tab, and puts a space after a
    * group's member field. */
  lemma DisplayIsLinePlusTab(r: Record)
    requires r.HeaderRec? ==> r.h.version.Some?
    ensures !IsGroup(r) ==> DisplayText(r) == RecordLine(r) + "\t"
    ensures IsGroup(r) ==> DisplayText(r) == Lead(r) + " " + OptFieldsText(Tags(r)) + "\t"
  {
    var lead, gap, tags := Lead(r), DisplayGap(r), TagTexts(Tags(r));
    DisplayIsLeadThenTags(r);
    GapThenTerminated(lead, gap, tags);
    assert lead + "" == lead;
  }

  /** The same with a gap before the first tab. */
  lemma GapThenTerminated(lead: string, gap: string, tags: seq<string>)
    ensures lead + (gap + "\t") + Terminated(tags, "\t") == lead + gap + Prefixed(tags, "\t") + "\t"
  {
    TabThenTerminated(lead + gap, tags);
    assert lead + (gap + "\t") == lead + gap + "\t";
  }

  /** Fields each followed by a tab, after a tab, are the fields each
    * preceded by a tab, then a tab. */
  lemma TabThenTerminated(lead: string, tags: seq<string>)
    ensures lead + "\t" + Terminated(tags, "\t") == lead + Prefixed(tags, "\t") + "\t"
  {
    SeparatorThenTerminated(tags, "\t");
    assert lead + "\t" + Terminated(tags, "\t") == lead + ("\t" + Terminated(tags, "\t"));
  }

  /** A single member followed by a space, then a tab, is the member, then a
    * space and a tab. */
  lemma SpaceAfterMember(front: string, member: string, tail: string)
    ensures front + Terminated([member], " ") + "\t" + tail == front + member + (" " + "\t") + tail
  {
    assert Terminated([member], " ") == member + " ";
  }

  /** `Display` writes the fixed fields, a space for a group, then a tab,
    * then every optional field followed by a tab. */
  lemma DisplayIsLeadThenTags(r: Record)
    requires r.HeaderRec? ==> r.h.version.Some?
    ensures DisplayText(r) == Lead(r) + (DisplayGap(r) + "\t") + Terminated(TagTexts(Tags(r)), "\t")
  {
    match r {
      case HeaderRec(_) => assert DisplayGap(r) + "\t" == "\t";
      case SegmentRec(_) => assert DisplayGap(r) + "\t" == "\t";
      case FragmentRec(_) => assert DisplayGap(r) + "\t" == "\t";
      case EdgeRec(_) => assert DisplayGap(r) + "\t" == "\t";
      case GapRec(_) => assert DisplayGap(r) + "\t" == "\t";
      case GroupORec(o) => SpaceAfterMember("O\t" + o.id + "\t", o.varField, Terminated(TagTexts(o.tags), "\t"));
      case GroupURec(u) => SpaceAfterMember("U\t" + u.id + "\t", u.varField, Terminated(TagTexts(u.tags), "\t"));
    }
  }
}
