/** Reading back what `Display` prints: every well-formed GFA 1.0 record line
  * parses to the record it was printed from, and the lines of a printed
  * document (without comments) parse back to the document. */
module Gfa1RoundTrip {
  import opened Text
  import opened Gfa1
  import opened ParserGfa1

  predicate FieldsIn(fs: FieldSet, xs: seq<string>) { forall i :: 0 <= i < |xs| ==> IsField(fs, xs[i]) }

  predicate AllOverlaps(xs: seq<string>) { forall i :: 0 <= i < |xs| ==> IsOverlap(xs[i]) }

  /** A version the header parser reads in full: none, or `VN:Z:1.0`-shaped. */
  predicate ValidHeader(h: Header) { h.version == "" || IsVersion(h.version) }

  predicate ValidSegment(s: Segment)
  {
    IsName(s.name) && IsSequence(s.sequence) && FieldsIn(SEGMENT_FIELDS, s.optionalFields)
  }

  predicate ValidLink(l: Link)
  {
    IsName(l.fromSegment) && IsName(l.toSegment) && IsOverlap(l.overlap)
    && FieldsIn(LINK_FIELDS, l.optionalFields)
  }

  predicate ValidContainment(c: Containment)
  {
    IsName(c.containerName) && IsName(c.containedName) && c.pos < U64_LIMIT
    && IsOverlap(c.overlap) && FieldsIn(CONTAINMENT_FIELDS, c.optionalFields)
  }

  /** The segment names are printed as one name: the first must start a name,
    * and none may hold a comma or a non-printable character. */
  predicate ValidPath(p: Path)
  {
    IsName(p.pathName) && |p.segmentNames| > 0 && IsName(p.segmentNames[0])
    && (forall i :: 0 <= i < |p.segmentNames| ==> All(p.segmentNames[i], Printable))
    && NoneContains(p.segmentNames, ',')
    && AllOverlaps(p.overlaps)
  }

  predicate ValidGfa(g: Gfa)
  {
    (forall i :: 0 <= i < |g.headers| ==> ValidHeader(g.headers[i]))
    && (forall i :: 0 <= i < |g.segments| ==> ValidSegment(g.segments[i]))
    && (forall i :: 0 <= i < |g.links| ==> ValidLink(g.links[i]))
    && (forall i :: 0 <= i < |g.containments| ==> ValidContainment(g.containments[i]))
    && (forall i :: 0 <= i < |g.paths| ==> ValidPath(g.paths[i]))
    && g.comments == []
  }

  /** The optional fields printed after a record, each followed by a tab,
    * read back as the same list, leaving the last tab. */
  lemma TrailingFields(fs: FieldSet, fields: seq<string>)
    requires WellFormedSet(fs) && FieldsIn(fs, fields)
    ensures ParseOptionalFields(fs, "\t" + Terminated(fields, "\t")) == Done("\t", Prefixed(fields, "\t"))
    ensures Fields(Prefixed(fields, "\t")) == fields
  {
    SeparatorThenTerminated(fields, "\t");
    ParseOptionalFieldsOf(fs, fields, "\t");
  }

  lemma NameTab(a: string, rest: string)
    requires IsName(a)
    ensures Tab(ParseName(a + ("\t" + rest))) == Done(rest, a)
  {
    ParseNameOf(a, "\t" + rest);
    TabAfter(a, rest);
  }

  lemma OrientTab(o: Orientation, rest: string)
    ensures Tab(ParseOrient(OrientationText(o) + ("\t" + rest))) == Done(rest, o)
  {
    ParseOrientOf(o, "\t" + rest);
    TabAfter(o, rest);
  }

  // ---------------------------------------------------------------------
  // The record parsers, one step at a time
  // ---------------------------------------------------------------------

  lemma SegmentSteps(x: string, r1: string, r2: string, rest: string, captured: string, s: Segment)
    requires Tab(ParseName(x)) == Done(r1, s.name)
    requires ParseSequence(r1) == Done(r2, s.sequence)
    requires ParseOptionalFields(SEGMENT_FIELDS, r2) == Done(rest, captured)
    requires Fields(captured) == s.optionalFields
    ensures ParseSegment(x) == Done(rest, s)
  {
  }

  lemma LinkSteps(x: string, r1: string, r2: string, r3: string, r4: string, r5: string,
                  rest: string, captured: string, l: Link)
    requires Tab(ParseName(x)) == Done(r1, l.fromSegment)
    requires Tab(ParseOrient(r1)) == Done(r2, l.fromOrient)
    requires Tab(ParseName(r2)) == Done(r3, l.toSegment)
    requires Tab(ParseOrient(r3)) == Done(r4, l.toOrient)
    requires ParseOverlap(r4) == Done(r5, l.overlap)
    requires ParseOptionalFields(LINK_FIELDS, r5) == Done(rest, captured)
    requires Fields(captured) == l.optionalFields
    ensures ParseLink(x) == Done(rest, l)
  {
  }

  lemma ContainmentSteps(x: string, r1: string, r2: string, r3: string, r4: string, r5: string,
                         r6: string, rest: string, h: ContainmentFields)
    requires Tab(ParseName(x)) == Done(r1, h.container)
    requires Tab(ParseOrient(r1)) == Done(r2, h.containerOrient)
    requires Tab(ParseName(r2)) == Done(r3, h.contained)
    requires Tab(ParseOrient(r3)) == Done(r4, h.containedOrient)
    requires Span(r4, Digit) == |h.digits| && r4 == h.digits + ("\t" + r5)
    requires ParseOverlap(r5) == Done(r6, h.overlap)
    requires ParseOptionalFields(CONTAINMENT_FIELDS, r6) == Done(rest, h.captured)
    ensures ContainmentHead(x) == Done(rest, h)
  {
    PositionTab(r4, h.digits, r5);
  }

  /** The position's digits, then a tab. */
  lemma PositionTab(r4: string, digits: string, r5: string)
    requires Span(r4, Digit) == |digits| && r4 == digits + ("\t" + r5)
    ensures var n := Span(r4, Digit); Tab(Done(r4[n..], r4[..n])) == Done(r5, digits)
  {
    JoinedSlices(digits, "\t" + r5);
    TabAfter(digits, r5);
  }

  lemma PathSteps(x: string, r1: string, r2: string, rest: string, segments: string, p: Path)
    requires Tab(ParseName(x)) == Done(r1, p.pathName)
    requires Tab(ParseName(r1)) == Done(r2, segments)
    requires SplitTerminator(segments, ',') == p.segmentNames
    requires OverlapList(r2) == Done(rest, p.overlaps)
    ensures ParsePath(x) == Done(rest, p)
  {
  }

  /** `parse_line` hands the text after `<letter>\t` to the parser of that kind. */
  lemma RecordLineOf(letter: char, x: string, rest: string, v: Line)
    requires RecordLetter(letter) && (letter == 'C' ==> PositionConverts(x))
    requires ParseRecord(letter, x) == Done(rest, v)
    ensures Parsable([letter, '\t'] + x) && ParseLine([letter, '\t'] + x) == Done(rest, v)
  {
    assert ([letter, '\t'] + x)[2..] == x;
  }

  lemma SegmentRecordOf(x: string, rest: string, s: Segment)
    requires ParseSegment(x) == Done(rest, s)
    ensures ParseRecord('S', x) == Done(rest, SegmentLine(s))
  {
    assert 'S' != 'H';
  }

  lemma LinkRecordOf(x: string, rest: string, l: Link)
    requires ParseLink(x) == Done(rest, l)
    ensures ParseRecord('L', x) == Done(rest, LinkLine(l))
  {
    assert 'L' != 'H' && 'L' != 'S';
  }

  lemma ContainmentRecordOf(x: string, rest: string, c: Containment)
    requires PositionConverts(x) && ParseContainment(x) == Done(rest, c)
    ensures ParseRecord('C', x) == Done(rest, ContainmentLine(c))
  {
    assert 'C' != 'H' && 'C' != 'S' && 'C' != 'L';
  }

  lemma PathRecordOf(x: string, rest: string, p: Path)
    requires ParsePath(x) == Done(rest, p)
    ensures ParseRecord('P', x) == Done(rest, PathLine(p))
  {
    assert 'P' != 'H' && 'P' != 'S' && 'P' != 'L' && 'P' != 'C';
  }

  // ---------------------------------------------------------------------
  // Records
  // ---------------------------------------------------------------------

  lemma HeaderRoundTrip(h: Header)
    requires ValidHeader(h)
    ensures Parsable(HeaderText(h)) && ParseLine(HeaderText(h)) == Done("", HeaderLine(h))
  {
    var line := HeaderText(h);
    assert line[2..] == h.version;
    if h.version != "" {
      assert h.version[..8] == h.version;
    }
  }

  /** The text after `S\t`, nested to the right the way the parser reads it. */
  function SegmentBody(s: Segment): string
  {
    s.name + ("\t" + (s.sequence + ("\t" + Terminated(s.optionalFields, "\t"))))
  }

  lemma ParseSegmentOf(s: Segment)
    requires ValidSegment(s)
    ensures ParseSegment(SegmentBody(s)) == Done("\t", s)
  {
    var t := "\t" + Terminated(s.optionalFields, "\t");
    NameTab(s.name, s.sequence + t);
    ParseSequenceOf(s.sequence, t);
    FieldSetsWellFormed();
    TrailingFields(SEGMENT_FIELDS, s.optionalFields);
    SegmentSteps(SegmentBody(s), s.sequence + t, t, "\t", Prefixed(s.optionalFields, "\t"), s);
  }

  lemma SegmentRoundTrip(s: Segment)
    requires ValidSegment(s)
    ensures Parsable(SegmentText(s)) && ParseLine(SegmentText(s)) == Done("\t", SegmentLine(s))
  {
    ParseSegmentOf(s);
    SegmentTextOf(s);
    SegmentRecordOf(SegmentBody(s), "\t", s);
    RecordLineOf('S', SegmentBody(s), "\t", SegmentLine(s));
  }

  lemma SegmentTextOf(s: Segment)
    ensures SegmentText(s) == ['S', '\t'] + SegmentBody(s)
  {
  }

  function LinkBody(l: Link): string
  {
    l.fromSegment + ("\t" + (OrientationText(l.fromOrient) + ("\t" + (l.toSegment + ("\t"
      + (OrientationText(l.toOrient) + ("\t" + (l.overlap + ("\t" + Terminated(l.optionalFields, "\t"))))))))))
  }

  lemma ParseLinkOf(l: Link)
    requires ValidLink(l)
    ensures ParseLink(LinkBody(l)) == Done("\t", l)
  {
    var t := "\t" + Terminated(l.optionalFields, "\t");
    var r4 := l.overlap + t;
    var r3 := OrientationText(l.toOrient) + ("\t" + r4);
    var r2 := l.toSegment + ("\t" + r3);
    var r1 := OrientationText(l.fromOrient) + ("\t" + r2);
    NameTab(l.fromSegment, r1);
    OrientTab(l.fromOrient, r2);
    NameTab(l.toSegment, r3);
    OrientTab(l.toOrient, r4);
    ParseOverlapOf(l.overlap, t);
    FieldSetsWellFormed();
    TrailingFields(LINK_FIELDS, l.optionalFields);
    LinkSteps(LinkBody(l), r1, r2, r3, r4, t, "\t", Prefixed(l.optionalFields, "\t"), l);
  }

  lemma LinkTextOf(l: Link)
    ensures LinkText(l) == ['L', '\t'] + LinkBody(l)
  {
  }

  lemma LinkRoundTrip(l: Link)
    requires ValidLink(l)
    ensures Parsable(LinkText(l)) && ParseLine(LinkText(l)) == Done("\t", LinkLine(l))
  {
    ParseLinkOf(l);
    LinkTextOf(l);
    LinkRecordOf(LinkBody(l), "\t", l);
    RecordLineOf('L', LinkBody(l), "\t", LinkLine(l));
  }

  function ContainmentBody(c: Containment): string
  {
    c.containerName + ("\t" + (OrientationText(c.containerOrient) + ("\t" + (c.containedName + ("\t"
      + (OrientationText(c.containedOrient) + ("\t" + (NatToString(c.pos) + ("\t" + (c.overlap
      + ("\t" + Terminated(c.optionalFields, "\t"))))))))))))
  }

  lemma ContainmentHeadOf(c: Containment)
    requires ValidContainment(c)
    ensures ContainmentHead(ContainmentBody(c)) == Done("\t", ContainmentFields(c.containerName,
      c.containerOrient, c.containedName, c.containedOrient, NatToString(c.pos), c.overlap,
      Prefixed(c.optionalFields, "\t")))
  {
    var t := "\t" + Terminated(c.optionalFields, "\t");
    var digits := NatToString(c.pos);
    var r5 := c.overlap + t;
    var r4 := digits + ("\t" + r5);
    var r3 := OrientationText(c.containedOrient) + ("\t" + r4);
    var r2 := c.containedName + ("\t" + r3);
    var r1 := OrientationText(c.containerOrient) + ("\t" + r2);
    NameTab(c.containerName, r1);
    OrientTab(c.containerOrient, r2);
    NameTab(c.containedName, r3);
    OrientTab(c.containedOrient, r4);
    SpanOfRun(digits, "\t" + r5, Digit);
    ParseOverlapOf(c.overlap, t);
    FieldSetsWellFormed();
    TrailingFields(CONTAINMENT_FIELDS, c.optionalFields);
    ContainmentSteps(ContainmentBody(c), r1, r2, r3, r4, r5, t, "\t", ContainmentFields(c.containerName,
      c.containerOrient, c.containedName, c.containedOrient, digits, c.overlap,
      Prefixed(c.optionalFields, "\t")));
  }

  lemma ParseContainmentOf(c: Containment)
    requires ValidContainment(c)
    ensures PositionConverts(ContainmentBody(c)) && ParseContainment(ContainmentBody(c)) == Done("\t", c)
  {
    ContainmentHeadOf(c);
    NatToStringParses(c.pos);
    FieldSetsWellFormed();
    TrailingFields(CONTAINMENT_FIELDS, c.optionalFields);
  }

  lemma ContainmentTextOf(c: Containment)
    ensures ContainmentText(c) == ['C', '\t'] + ContainmentBody(c)
  {
    ConcatAssociates("C\t" + c.containerName + "\t" + OrientationText(c.containerOrient) + "\t" + c.containedName + "\t" + OrientationText(c.containedOrient) + "\t" + NatToString(c.pos) + "\t" + c.overlap,
      "\t",
      Terminated(c.optionalFields, "\t"));
    ConcatAssociates("C\t" + c.containerName + "\t" + OrientationText(c.containerOrient) + "\t" + c.containedName + "\t" + OrientationText(c.containedOrient) + "\t" + NatToString(c.pos) + "\t",
      c.overlap,
      "\t" + Terminated(c.optionalFields, "\t"));
    ConcatAssociates("C\t" + c.containerName + "\t" + OrientationText(c.containerOrient) + "\t" + c.containedName + "\t" + OrientationText(c.containedOrient) + "\t" + NatToString(c.pos),
      "\t",
      c.overlap + ("\t" + Terminated(c.optionalFields, "\t")));
    ConcatAssociates("C\t" + c.containerName + "\t" + OrientationText(c.containerOrient) + "\t" + c.containedName + "\t" + OrientationText(c.containedOrient) + "\t",
      NatToString(c.pos),
      "\t" + (c.overlap + ("\t" + Terminated(c.optionalFields, "\t"))));
    ConcatAssociates("C\t" + c.containerName + "\t" + OrientationText(c.containerOrient) + "\t" + c.containedName + "\t" + OrientationText(c.containedOrient),
      "\t",
      NatToString(c.pos) + ("\t" + (c.overlap + ("\t" + Terminated(c.optionalFields, "\t")))));
    ConcatAssociates("C\t" + c.containerName + "\t" + OrientationText(c.containerOrient) + "\t" + c.containedName + "\t",
      OrientationText(c.containedOrient),
      "\t" + (NatToString(c.pos) + ("\t" + (c.overlap + ("\t" + Terminated(c.optionalFields, "\t"))))));
    ConcatAssociates("C\t" + c.containerName + "\t" + OrientationText(c.containerOrient) + "\t" + c.containedName,
      "\t",
      OrientationText(c.containedOrient) + ("\t" + (NatToString(c.pos) + ("\t" + (c.overlap + ("\t" + Terminated(c.optionalFields, "\t")))))));
    ConcatAssociates("C\t" + c.containerName + "\t" + OrientationText(c.containerOrient) + "\t",
      c.containedName,
      "\t" + (OrientationText(c.containedOrient) + ("\t" + (NatToString(c.pos) + ("\t" + (c.overlap + ("\t" + Terminated(c.optionalFields, "\t"))))))));
    ConcatAssociates("C\t" + c.containerName + "\t" + OrientationText(c.containerOrient),
      "\t",
      c.containedName + ("\t" + (OrientationText(c.containedOrient) + ("\t" + (NatToString(c.pos) + ("\t" + (c.overlap + ("\t" + Terminated(c.optionalFields, "\t")))))))));
    ConcatAssociates("C\t" + c.containerName + "\t",
      OrientationText(c.containerOrient),
      "\t" + (c.containedName + ("\t" + (OrientationText(c.containedOrient) + ("\t" + (NatToString(c.pos) + ("\t" + (c.overlap + ("\t" + Terminated(c.optionalFields, "\t"))))))))));
    ConcatAssociates("C\t" + c.containerName,
      "\t",
      OrientationText(c.containerOrient) + ("\t" + (c.containedName + ("\t" + (OrientationText(c.containedOrient) + ("\t" + (NatToString(c.pos) + ("\t" + (c.overlap + ("\t" + Terminated(c.optionalFields, "\t")))))))))));
    ConcatAssociates("C\t",
      c.containerName,
      "\t" + (OrientationText(c.containerOrient) + ("\t" + (c.containedName + ("\t" + (OrientationText(c.containedOrient) + ("\t" + (NatToString(c.pos) + ("\t" + (c.overlap + ("\t" + Terminated(c.optionalFields, "\t"))))))))))));
  }

  lemma ContainmentRoundTrip(c: Containment)
    requires ValidContainment(c)
    ensures Parsable(ContainmentText(c)) && ParseLine(ContainmentText(c)) == Done("\t", ContainmentLine(c))
  {
    ParseContainmentOf(c);
    ContainmentTextOf(c);
    ContainmentRecordOf(ContainmentBody(c), "\t", c);
    RecordLineOf('C', ContainmentBody(c), "\t", ContainmentLine(c));
  }

  /** `MoreOverlaps` reads `,<overlap>` pairs until the trailing comma. */
  lemma {:induction false} MoreOverlapsOf(xs: seq<string>)
    requires AllOverlaps(xs)
    ensures MoreOverlaps("," + Terminated(xs, ",")) == (",", xs)
  {
    var s := "," + Terminated(xs, ",");
    if xs == [] {
      assert s == ",";
      assert s[1..] == [];
    } else {
      var tail := "," + Terminated(xs[1..], ",");
      assert s[1..] == xs[0] + tail;
      ParseOverlapOf(xs[0], tail);
      MoreOverlapsOf(xs[1..]);
      assert [xs[0]] + xs[1..] == xs;
    }
  }

  lemma OverlapListOf(xs: seq<string>)
    requires AllOverlaps(xs)
    ensures OverlapList(Terminated(xs, ",")) == Done(if xs == [] then "" else ",", xs)
  {
    if xs != [] {
      var tail := "," + Terminated(xs[1..], ",");
      var input := Terminated(xs, ",");
      assert ParseOverlap(input) == Done(tail, xs[0]) by {
        assert input == xs[0] + tail;
        ParseOverlapOf(xs[0], tail);
      }
      assert MoreOverlaps(tail) == (",", xs[1..]) by {
        MoreOverlapsOf(xs[1..]);
      }
      assert [xs[0]] + xs[1..] == xs;
    }
  }

  function PathBody(p: Path): string
  {
    p.pathName + ("\t" + (Terminated(p.segmentNames, ",") + ("\t" + Terminated(p.overlaps, ","))))
  }

  lemma SegmentNamesOf(p: Path)
    requires ValidPath(p)
    ensures IsName(Terminated(p.segmentNames, ","))
    ensures SplitTerminator(Terminated(p.segmentNames, ","), ',') == p.segmentNames
  {
    var segments := Terminated(p.segmentNames, ",");
    assert [','] == ",";
    AllTerminated(p.segmentNames, ',', Printable);
    assert segments[0] == p.segmentNames[0][0];
    SplitTerminatorOfTerminated(p.segmentNames, ',');
  }

  lemma ParsePathOf(p: Path)
    requires ValidPath(p)
    ensures ParsePath(PathBody(p)) == Done(if p.overlaps == [] then "" else ",", p)
  {
    var segments := Terminated(p.segmentNames, ",");
    var overlaps := Terminated(p.overlaps, ",");
    NameTab(p.pathName, segments + ("\t" + overlaps));
    SegmentNamesOf(p);
    NameTab(segments, overlaps);
    OverlapListOf(p.overlaps);
    PathSteps(PathBody(p), segments + ("\t" + overlaps), overlaps,
      if p.overlaps == [] then "" else ",", segments, p);
  }

  lemma PathTextOf(p: Path)
    ensures PathText(p) == ['P', '\t'] + PathBody(p)
  {
  }

  lemma PathRoundTrip(p: Path)
    requires ValidPath(p)
    ensures Parsable(PathText(p))
    ensures ParseLine(PathText(p)) == Done(if p.overlaps == [] then "" else ",", PathLine(p))
  {
    ParsePathOf(p);
    PathTextOf(p);
    var rest := if p.overlaps == [] then "" else ",";
    PathRecordOf(PathBody(p), rest, p);
    RecordLineOf('P', PathBody(p), rest, PathLine(p));
  }

  // ---------------------------------------------------------------------
  // Whole documents
  // ---------------------------------------------------------------------

  /** Each text, parsed as a line, gives the line at the same position. */
  predicate ReadsAs(texts: seq<string>, ls: seq<Line>)
  {
    |texts| == |ls|
    && forall i :: 0 <= i < |texts| ==>
         Parsable(texts[i]) && ParseLine(texts[i]).Done? && ParseLine(texts[i]).value == ls[i]
  }

  /** The lines added to the document one after another. */
  function AddLines(acc: Gfa, ls: seq<Line>): Gfa
    decreases |ls|
  {
    if ls == [] then acc else AddLines(AddLine(acc, ls[0]), ls[1..])
  }

  lemma ReadsAsTail(texts: seq<string>, ls: seq<Line>)
    requires ReadsAs(texts, ls) && texts != []
    ensures ReadsAs(texts[1..], ls[1..])
  {
    forall i | 0 <= i < |texts[1..]|
      ensures Parsable(texts[1..][i]) && ParseLine(texts[1..][i]).Done?
      ensures ParseLine(texts[1..][i]).value == ls[1..][i]
    {
      assert texts[1..][i] == texts[i + 1];
    }
  }

  /** Reading one more line that parses as the first of `ls`. */
  lemma ParseFromCons(acc: Gfa, texts: seq<string>, ls: seq<Line>, rest: seq<string>)
    requires ReadsAs(texts, ls) && texts != [] && AllParsable(texts + rest)
    ensures AllParsable(texts[1..] + rest)
    ensures ParseFrom(acc, texts + rest) == ParseFrom(AddLine(acc, ls[0]), texts[1..] + rest)
  {
    var lines := texts + rest;
    assert lines[0] == texts[0] && lines[1..] == texts[1..] + rest;
    assert forall i :: 0 <= i < |lines[1..]| ==> lines[1..][i] == lines[i + 1];
  }

  lemma ParsableAppend(texts: seq<string>, ls: seq<Line>, rest: seq<string>)
    requires ReadsAs(texts, ls) && AllParsable(rest)
    ensures AllParsable(texts + rest)
  {
    forall i | 0 <= i < |texts + rest| ensures Parsable((texts + rest)[i]) {
      if i >= |texts| {
        assert (texts + rest)[i] == rest[i - |texts|];
      }
    }
  }

  lemma {:induction false} ParseFromReads(acc: Gfa, texts: seq<string>, ls: seq<Line>, rest: seq<string>)
    requires ReadsAs(texts, ls) && AllParsable(rest)
    ensures AllParsable(texts + rest)
    ensures ParseFrom(acc, texts + rest) == ParseFrom(AddLines(acc, ls), rest)
    decreases |texts|
  {
    ParsableAppend(texts, ls, rest);
    if texts == [] {
      assert texts + rest == rest;
    } else {
      ReadsAsTail(texts, ls);
      ParseFromReads(AddLine(acc, ls[0]), texts[1..], ls[1..], rest);
      ParseFromCons(acc, texts, ls, rest);
    }
  }

  lemma {:induction false} AddLinesAppend(acc: Gfa, xs: seq<Line>, ys: seq<Line>)
    ensures AddLines(acc, xs + ys) == AddLines(AddLines(acc, xs), ys)
    decreases |xs|
  {
    if xs == [] {
      assert xs + ys == ys;
    } else {
      assert (xs + ys)[1..] == xs[1..] + ys;
      AddLinesAppend(AddLine(acc, xs[0]), xs[1..], ys);
    }
  }

  lemma ReadsAsAppend(t1: seq<string>, l1: seq<Line>, t2: seq<string>, l2: seq<Line>)
    requires ReadsAs(t1, l1) && ReadsAs(t2, l2)
    ensures ReadsAs(t1 + t2, l1 + l2)
  {
    forall i | 0 <= i < |t1 + t2|
      ensures Parsable((t1 + t2)[i]) && ParseLine((t1 + t2)[i]).Done?
      ensures ParseLine((t1 + t2)[i]).value == (l1 + l2)[i]
    {
      if i >= |t1| {
        assert (t1 + t2)[i] == t2[i - |t1|] && (l1 + l2)[i] == l2[i - |t1|];
      }
    }
  }

  function HeaderRecords(hs: seq<Header>): (r: seq<Line>)
    ensures |r| == |hs| && forall i :: 0 <= i < |hs| ==> r[i] == HeaderLine(hs[i])
  {
    seq(|hs|, i requires 0 <= i < |hs| => HeaderLine(hs[i]))
  }

  function SegmentRecords(ss: seq<Segment>): (r: seq<Line>)
    ensures |r| == |ss| && forall i :: 0 <= i < |ss| ==> r[i] == SegmentLine(ss[i])
  {
    seq(|ss|, i requires 0 <= i < |ss| => SegmentLine(ss[i]))
  }

  function LinkRecords(ls: seq<Link>): (r: seq<Line>)
    ensures |r| == |ls| && forall i :: 0 <= i < |ls| ==> r[i] == LinkLine(ls[i])
  {
    seq(|ls|, i requires 0 <= i < |ls| => LinkLine(ls[i]))
  }

  function ContainmentRecords(cs: seq<Containment>): (r: seq<Line>)
    ensures |r| == |cs| && forall i :: 0 <= i < |cs| ==> r[i] == ContainmentLine(cs[i])
  {
    seq(|cs|, i requires 0 <= i < |cs| => ContainmentLine(cs[i]))
  }

  function PathRecords(ps: seq<Path>): (r: seq<Line>)
    ensures |r| == |ps| && forall i :: 0 <= i < |ps| ==> r[i] == PathLine(ps[i])
  {
    seq(|ps|, i requires 0 <= i < |ps| => PathLine(ps[i]))
  }

  /** The parsed form of every record line of a document, in print order. */
  function Records(g: Gfa): seq<Line>
  {
    HeaderRecords(g.headers) + SegmentRecords(g.segments) + LinkRecords(g.links)
      + ContainmentRecords(g.containments) + PathRecords(g.paths)
  }

  lemma {:induction false} AddHeaders(g: Gfa, hs: seq<Header>)
    ensures AddLines(g, HeaderRecords(hs)) == g.(headers := g.headers + hs)
    decreases |hs|
  {
    if hs == [] {
      assert g.headers + hs == g.headers;
    } else {
      assert HeaderRecords(hs)[1..] == HeaderRecords(hs[1..]);
      AddHeaders(g.(headers := g.headers + [hs[0]]), hs[1..]);
      assert g.headers + [hs[0]] + hs[1..] == g.headers + hs;
    }
  }

  lemma {:induction false} AddSegments(g: Gfa, ss: seq<Segment>)
    ensures AddLines(g, SegmentRecords(ss)) == g.(segments := g.segments + ss)
    decreases |ss|
  {
    if ss == [] {
      assert g.segments + ss == g.segments;
    } else {
      assert SegmentRecords(ss)[1..] == SegmentRecords(ss[1..]);
      AddSegments(g.(segments := g.segments + [ss[0]]), ss[1..]);
      assert g.segments + [ss[0]] + ss[1..] == g.segments + ss;
    }
  }

  lemma {:induction false} AddLinks(g: Gfa, ls: seq<Link>)
    ensures AddLines(g, LinkRecords(ls)) == g.(links := g.links + ls)
    decreases |ls|
  {
    if ls == [] {
      assert g.links + ls == g.links;
    } else {
      assert LinkRecords(ls)[1..] == LinkRecords(ls[1..]);
      AddLinks(g.(links := g.links + [ls[0]]), ls[1..]);
      assert g.links + [ls[0]] + ls[1..] == g.links + ls;
    }
  }

  lemma {:induction false} AddContainments(g: Gfa, cs: seq<Containment>)
    ensures AddLines(g, ContainmentRecords(cs)) == g.(containments := g.containments + cs)
    decreases |cs|
  {
    if cs == [] {
      assert g.containments + cs == g.containments;
    } else {
      assert ContainmentRecords(cs)[1..] == ContainmentRecords(cs[1..]);
      AddContainments(g.(containments := g.containments + [cs[0]]), cs[1..]);
      assert g.containments + [cs[0]] + cs[1..] == g.containments + cs;
    }
  }

  lemma {:induction false} AddPaths(g: Gfa, ps: seq<Path>)
    ensures AddLines(g, PathRecords(ps)) == g.(paths := g.paths + ps)
    decreases |ps|
  {
    if ps == [] {
      assert g.paths + ps == g.paths;
    } else {
      assert PathRecords(ps)[1..] == PathRecords(ps[1..]);
      AddPaths(g.(paths := g.paths + [ps[0]]), ps[1..]);
      assert g.paths + [ps[0]] + ps[1..] == g.paths + ps;
    }
  }

  /** Adding the records of a comment-free document to an empty one rebuilds it. */
  lemma AddRecords(g: Gfa)
    requires g.comments == []
    ensures AddLines(NewGfa(), Records(g)) == g
  {
    var h, s, l, c := HeaderRecords(g.headers), SegmentRecords(g.segments), LinkRecords(g.links),
      ContainmentRecords(g.containments);
    AddLinesAppend(NewGfa(), h + s + l + c, PathRecords(g.paths));
    AddLinesAppend(NewGfa(), h + s + l, c);
    AddLinesAppend(NewGfa(), h + s, l);
    AddLinesAppend(NewGfa(), h, s);
    var e0 := NewGfa();
    AddHeaders(e0, g.headers);
    assert e0.headers + g.headers == g.headers;
    var e1 := e0.(headers := g.headers);
    AddSegments(e1, g.segments);
    assert e1.segments + g.segments == g.segments;
    var e2 := e1.(segments := g.segments);
    AddLinks(e2, g.links);
    assert e2.links + g.links == g.links;
    var e3 := e2.(links := g.links);
    AddContainments(e3, g.containments);
    assert e3.containments + g.containments == g.containments;
    var e4 := e3.(containments := g.containments);
    AddPaths(e4, g.paths);
    assert e4.paths + g.paths == g.paths;
    assert e4.(paths := g.paths) == g;
  }

  lemma HeaderLinesRead(hs: seq<Header>)
    requires forall i :: 0 <= i < |hs| ==> ValidHeader(hs[i])
    ensures ReadsAs(HeaderLines(hs), HeaderRecords(hs))
  {
    forall i | 0 <= i < |hs|
      ensures Parsable(HeaderLines(hs)[i]) && ParseLine(HeaderLines(hs)[i]).Done?
      ensures ParseLine(HeaderLines(hs)[i]).value == HeaderRecords(hs)[i]
    {
      HeaderRoundTrip(hs[i]);
    }
  }

  lemma SegmentLinesRead(ss: seq<Segment>)
    requires forall i :: 0 <= i < |ss| ==> ValidSegment(ss[i])
    ensures ReadsAs(SegmentLines(ss), SegmentRecords(ss))
  {
    forall i | 0 <= i < |ss|
      ensures Parsable(SegmentLines(ss)[i]) && ParseLine(SegmentLines(ss)[i]).Done?
      ensures ParseLine(SegmentLines(ss)[i]).value == SegmentRecords(ss)[i]
    {
      SegmentRoundTrip(ss[i]);
    }
  }

  lemma LinkLinesRead(ls: seq<Link>)
    requires forall i :: 0 <= i < |ls| ==> ValidLink(ls[i])
    ensures ReadsAs(LinkLines(ls), LinkRecords(ls))
  {
    forall i | 0 <= i < |ls|
      ensures Parsable(LinkLines(ls)[i]) && ParseLine(LinkLines(ls)[i]).Done?
      ensures ParseLine(LinkLines(ls)[i]).value == LinkRecords(ls)[i]
    {
      LinkRoundTrip(ls[i]);
    }
  }

  lemma ContainmentLinesRead(cs: seq<Containment>)
    requires forall i :: 0 <= i < |cs| ==> ValidContainment(cs[i])
    ensures ReadsAs(ContainmentLines(cs), ContainmentRecords(cs))
  {
    forall i | 0 <= i < |cs|
      ensures Parsable(ContainmentLines(cs)[i]) && ParseLine(ContainmentLines(cs)[i]).Done?
      ensures ParseLine(ContainmentLines(cs)[i]).value == ContainmentRecords(cs)[i]
    {
      ContainmentRoundTrip(cs[i]);
    }
  }

  lemma PathLinesRead(ps: seq<Path>)
    requires forall i :: 0 <= i < |ps| ==> ValidPath(ps[i])
    ensures ReadsAs(PathLines(ps), PathRecords(ps))
  {
    forall i | 0 <= i < |ps|
      ensures Parsable(PathLines(ps)[i]) && ParseLine(PathLines(ps)[i]).Done?
      ensures ParseLine(PathLines(ps)[i]).value == PathRecords(ps)[i]
    {
      PathRoundTrip(ps[i]);
    }
  }

  /** Every record line of a well-formed document reads back as its record. */
  lemma RecordLinesRead(g: Gfa)
    requires ValidGfa(g)
    ensures ReadsAs(RecordLines(g), Records(g))
  {
    HeaderLinesRead(g.headers);
    SegmentLinesRead(g.segments);
    LinkLinesRead(g.links);
    ContainmentLinesRead(g.containments);
    PathLinesRead(g.paths);
    ReadsAsAppend(HeaderLines(g.headers), HeaderRecords(g.headers), SegmentLines(g.segments), SegmentRecords(g.segments));
    ReadsAsAppend(HeaderLines(g.headers) + SegmentLines(g.segments), HeaderRecords(g.headers) + SegmentRecords(g.segments),
      LinkLines(g.links), LinkRecords(g.links));
    ReadsAsAppend(HeaderLines(g.headers) + SegmentLines(g.segments) + LinkLines(g.links),
      HeaderRecords(g.headers) + SegmentRecords(g.segments) + LinkRecords(g.links),
      ContainmentLines(g.containments), ContainmentRecords(g.containments));
    ReadsAsAppend(HeaderLines(g.headers) + SegmentLines(g.segments) + LinkLines(g.links) + ContainmentLines(g.containments),
      HeaderRecords(g.headers) + SegmentRecords(g.segments) + LinkRecords(g.links) + ContainmentRecords(g.containments),
      PathLines(g.paths), PathRecords(g.paths));
  }

  /** Reading the record lines of a well-formed document, in print order,
    * rebuilds the document. */
  lemma GfaRoundTrip(g: Gfa)
    requires ValidGfa(g)
    ensures AllParsable(RecordLines(g)) && ParseFrom(NewGfa(), RecordLines(g)) == Some(g)
  {
    RecordLinesRead(g);
    assert AllParsable([]);
    ParseFromReads(NewGfa(), RecordLines(g), Records(g), []);
    assert RecordLines(g) + [] == RecordLines(g);
    AddRecords(g);
  }

  /** Parsing the printed text of a well-formed document, split into lines,
    * gives the document back. */
  lemma GfaTextRoundTrip(g: Gfa)
    requires ValidGfa(g) && NoneContains(RecordLines(g), '\n')
    ensures AllParsable(SplitTerminator(GfaText(g), '\n'))
    ensures ParseFrom(NewGfa(), SplitTerminator(GfaText(g), '\n')) == Some(g)
  {
    LinesOfGfaText(g);
    GfaRoundTrip(g);
  }

  // ---------------------------------------------------------------------
  // The parser's unit tests
  // ---------------------------------------------------------------------

  /** A segment line body with no optional fields and no trailing tab, the
    * shape of the parser's own segment test, reads as a segment without fields. */
  lemma ParseBareSegment(name: string, sequence: string)
    requires IsName(name) && IsSequence(sequence)
    ensures ParseSegment(name + ("\t" + sequence)) == Done("", Segment(name, sequence, []))
  {
    NameTab(name, sequence);
    ParseSequenceOf(sequence, "");
    assert sequence + "" == sequence;
    assert ParseOptionalFields(SEGMENT_FIELDS, "") == Done("", "");
    assert Fields("") == [];
    SegmentSteps(name + ("\t" + sequence), sequence, "", "", "", Segment(name, sequence, []));
  }
}
