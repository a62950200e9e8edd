/** Reading back what `Display` prints for GFA 2.0: every well-formed record
  * line parses to the record it was printed from, the record lines of a
  * document parse back to the document, and the group lines as the source
  * prints them lose their tags. */
module Gfa2RoundTrip {
  import opened Text
  import opened Gfa2
  import opened ParserGfa2

  predicate AllTags(tags: seq<string>) { forall i :: 0 <= i < |tags| ==> IsTag(tags[i]) }

  predicate AllWords(xs: seq<string>) { forall i :: 0 <= i < |xs| ==> Word(xs[i]) }

  /** A header whose version is absent or `VN:Z:2.0`-shaped and whose first
    * tag is not taken for the trace spacing `TS:i:` of the header tag. */
  predicate ValidHeader(h: Header)
  {
    (h.version == "" || IsVersion(h.version)) && AllTags(h.tags)
    && TraceSpacingLength("\t" + Terminated(h.tags, "\t")) == 0
  }

  predicate ValidSegment(s: Segment)
  {
    Word(s.id) && IsInt(s.len) && IsSequence(s.sequence) && AllTags(s.tags)
  }

  predicate ValidFragment(f: Fragment)
  {
    Word(f.id) && IsRef(f.extRef) && Word(f.sbeg) && Word(f.send) && Word(f.fbeg) && Word(f.fend)
    && IsAlignment(f.alignment) && AllTags(f.tags)
  }

  predicate ValidEdge(e: Edge)
  {
    Word(e.id) && IsRef(e.sid1) && IsRef(e.sid2) && Word(e.beg1) && Word(e.end1) && Word(e.beg2)
    && Word(e.end2) && IsAlignment(e.alignment) && AllTags(e.tags)
  }

  predicate ValidGap(g: Gap)
  {
    Word(g.id) && IsRef(g.sid1) && IsRef(g.sid2) && IsInt(g.dist) && (g.variance == "*" || IsInt(g.variance))
    && AllTags(g.tags)
  }

  predicate ValidGroupO(o: GroupO) { Word(o.id) && |o.members| > 0 && AllWords(o.members) && AllTags(o.tags) }

  predicate ValidGroupU(u: GroupU) { Word(u.id) && |u.members| > 0 && AllWords(u.members) && AllTags(u.tags) }

  /** A document of well-formed records and neither comments nor custom
    * records (which are not printed). */
  predicate ValidGfa2(g: Gfa2)
  {
    (forall i :: 0 <= i < |g.headers| ==> ValidHeader(g.headers[i]))
    && (forall i :: 0 <= i < |g.segments| ==> ValidSegment(g.segments[i]))
    && (forall i :: 0 <= i < |g.fragments| ==> ValidFragment(g.fragments[i]))
    && (forall i :: 0 <= i < |g.edges| ==> ValidEdge(g.edges[i]))
    && (forall i :: 0 <= i < |g.gaps| ==> ValidGap(g.gaps[i]))
    && (forall i :: 0 <= i < |g.groupsO| ==> ValidGroupO(g.groupsO[i]))
    && (forall i :: 0 <= i < |g.groupsU| ==> ValidGroupU(g.groupsU[i]))
    && g.comments == [] && g.customRecords == []
  }

  // ---------------------------------------------------------------------
  // Fields followed by a tab
  // ---------------------------------------------------------------------

  /** The tags printed after a record, each followed by a tab, read back as
    * the same list, leaving the last tab. */
  lemma TrailingTags(tags: seq<string>)
    requires AllTags(tags)
    ensures ParseTags("\t" + Terminated(tags, "\t")) == Done("\t", Prefixed(tags, "\t"))
    ensures Fields(Prefixed(tags, "\t")) == tags
  {
    SeparatorThenTerminated(tags, "\t");
    ParseTagsOf(tags, "\t");
  }

  lemma IdTab(a: string, rest: string)
    requires Word(a)
    ensures Tab(ParseId(a + ("\t" + rest))) == Done(rest, a)
  {
    assert Joined([a], " ") == a;
    ParseIdOf([a], "\t" + rest);
    TabAfter(a, rest);
  }

  lemma WordTab(a: string, rest: string)
    requires Word(a)
    ensures Tab(ParseWord(a + ("\t" + rest))) == Done(rest, a)
  {
    ParseWordOf(a, "\t" + rest);
    TabAfter(a, rest);
  }

  lemma RefTab(a: string, rest: string)
    requires IsRef(a)
    ensures Tab(ParseRef(a + ("\t" + rest))) == Done(rest, a)
  {
    ParseRefOf(a, "\t" + rest);
    TabAfter(a, rest);
  }

  lemma IntTab(a: string, rest: string)
    requires IsInt(a)
    ensures Tab(ParseInt(a + ("\t" + rest))) == Done(rest, a)
  {
    ParseIntOf(a, "\t" + rest);
    TabAfter(a, rest);
  }

  /** Four positions, each followed by a tab. */
  lemma ParsePositionsOf(p: Positions, rest: string)
    requires Word(p.p1) && Word(p.p2) && Word(p.p3) && Word(p.p4)
    ensures ParsePositions(p.p1 + ("\t" + (p.p2 + ("\t" + (p.p3 + ("\t" + (p.p4 + ("\t" + rest))))))))
      == Done(rest, p)
  {
    var r3 := p.p4 + ("\t" + rest);
    var r2 := p.p3 + ("\t" + r3);
    var r1 := p.p2 + ("\t" + r2);
    WordTab(p.p1, r1);
    WordTab(p.p2, r2);
    WordTab(p.p3, r3);
    WordTab(p.p4, rest);
  }

  // ---------------------------------------------------------------------
  // Alignments
  // ---------------------------------------------------------------------

  /** A run of `-?[0-9]+` that ends inside `w`, or at its end with no digit
    * after it, ends at the same place whatever follows. */
  lemma SignedDigitsExtend(w: string, rest: string)
    requires SignedDigits(w) > 0
    requires SignedDigits(w) < |w| || rest == [] || !Digit(rest[0])
    ensures SignedDigits(w + rest) == SignedDigits(w)
  {
    var k := SignedDigits(w);
    var r := ParseInt(w);
    assert r.value == w[..k] && r.rest == w[k..];
    ParseIntOf(w[..k], w[k..] + rest);
    assert w[..k] + (w[k..] + rest) == w + rest;
  }

  /** One comma and one number of a trace. */
  lemma TraceTailStep(w: string, rest: string, k: nat)
    requires |w| > 0 && w[0] == ',' && 0 < k == SignedDigits(w[1..])
    requires k < |w| - 1 || rest == [] || !Digit(rest[0])
    ensures 1 + k <= |w| && TraceTail(w + rest) == 1 + k + TraceTail(w[1 + k..] + rest)
  {
    var s := w + rest;
    assert s[0] == ',';
    assert SignedDigits(s[1..]) == k by {
      SliceAppend(w, rest, 1);
      SignedDigitsExtend(w[1..], rest);
    }
    assert s[1 + k..] == w[1 + k..] + rest by {
      SliceAppend(w, rest, 1 + k);
    }
  }

  /** After a comma and a number, a comma-led trace goes on with a comma-led trace or ends. */
  lemma TraceRest(w: string)
    requires |w| > 0 && w[0] == ',' && IsTrace(w[1..])
    ensures var k := SignedDigits(w[1..]);
      0 < k && 1 + k <= |w| && (k < |w| - 1 ==> w[1 + k] == ',')
      && (w[1 + k..] == [] || (w[1 + k..][0] == ',' && IsTrace(w[1 + k..][1..])))
  {
    var k := SignedDigits(w[1..]);
    if k < |w| - 1 {
      assert w[1..][k + 1..] == w[1 + k..][1..];
    }
  }

  /** `(,-?[0-9]+)*` reads a comma-led trace up to the tab after it. */
  lemma {:induction false} TraceTailOf(w: string, rest: string)
    requires w == [] || (w[0] == ',' && IsTrace(w[1..]))
    requires rest == [] || rest[0] == '\t'
    ensures TraceTail(w + rest) == |w|
    decreases |w|
  {
    if w != [] {
      var k := SignedDigits(w[1..]);
      TraceRest(w);
      TraceTailStep(w, rest, k);
      TraceTailOf(w[1 + k..], rest);
    } else {
      assert w + rest == rest;
    }
  }

  /** A trace is not read as a CIGAR: its first run of digits is followed by
    * a comma or by what comes after the trace. */
  lemma TraceIsNoCigar(w: string, rest: string)
    requires IsTrace(w) && (rest == [] || rest[0] == '\t')
    ensures CigarLength(w + rest) == 0
  {
    var s := w + rest;
    var k := SignedDigits(w);
    SignedDigitsExtend(w, rest);
    if s[0] != '-' {
      assert s[0..] == s;
      var d := Span(s, Digit);
      assert d == k;
      assert d < |s| ==> s[d] == ',' || s[d] == '\t' by {
        if d < |w| {
          assert s[d] == w[d];
        } else if d < |s| {
          assert s[d] == rest[0];
        }
      }
    }
  }

  lemma ParseTraceOf(w: string, rest: string)
    requires IsTrace(w) && (rest == [] || rest[0] == '\t')
    ensures ParseAlignment(w + rest) == Done(rest, w)
  {
    var s := w + rest;
    var k := SignedDigits(w);
    assert CigarLength(s) == 0 by {
      TraceIsNoCigar(w, rest);
    }
    assert SignedDigits(s) == k by {
      SignedDigitsExtend(w, rest);
    }
    assert TraceTail(s[k..]) == |w| - k by {
      SliceAppend(w, rest, k);
      TraceTailOf(w[k..], rest);
    }
    assert s[..|w|] == w && s[|w|..] == rest;
  }

  lemma AlignmentOf(a: string, rest: string)
    requires IsAlignment(a) && (rest == [] || rest[0] == '\t')
    ensures ParseAlignment(a + rest) == Done(rest, a)
  {
    if a == "*" {
      assert (a + rest)[1..] == rest;
    } else if IsCigar(a) {
      ParseCigarOf(a, rest);
    } else {
      ParseTraceOf(a, rest);
    }
  }

  // ---------------------------------------------------------------------
  // The record parsers, one step at a time
  // ---------------------------------------------------------------------

  lemma SegmentSteps(x: string, r1: string, r2: string, r3: string, rest: string, captured: string, s: Segment)
    requires Tab(ParseId(x)) == Done(r1, s.id)
    requires Tab(ParseInt(r1)) == Done(r2, s.len)
    requires ParseSequence(r2) == Done(r3, s.sequence)
    requires ParseTags(r3) == Done(rest, captured) && Fields(captured) == s.tags
    ensures ParseSegment(x) == Done(rest, s)
  {
  }

  lemma FragmentSteps(x: string, r1: string, r2: string, r3: string, r4: string, rest: string,
                      captured: string, f: Fragment)
    requires Tab(ParseId(x)) == Done(r1, f.id)
    requires Tab(ParseRef(r1)) == Done(r2, f.extRef)
    requires ParsePositions(r2) == Done(r3, Positions(f.sbeg, f.send, f.fbeg, f.fend))
    requires ParseAlignment(r3) == Done(r4, f.alignment)
    requires ParseTags(r4) == Done(rest, captured) && Fields(captured) == f.tags
    ensures ParseFragment(x) == Done(rest, f)
  {
  }

  lemma EdgeSteps(x: string, r1: string, r2: string, r3: string, r4: string, r5: string, rest: string,
                  captured: string, e: Edge)
    requires Tab(ParseOptId(x)) == Done(r1, e.id)
    requires Tab(ParseRef(r1)) == Done(r2, e.sid1)
    requires Tab(ParseRef(r2)) == Done(r3, e.sid2)
    requires ParsePositions(r3) == Done(r4, Positions(e.beg1, e.end1, e.beg2, e.end2))
    requires ParseAlignment(r4) == Done(r5, e.alignment)
    requires ParseTags(r5) == Done(rest, captured) && Fields(captured) == e.tags
    ensures ParseEdge(x) == Done(rest, e)
  {
  }

  lemma GapSteps(x: string, r1: string, r2: string, r3: string, r4: string, r5: string, rest: string,
                 captured: string, g: Gap)
    requires Tab(ParseOptId(x)) == Done(r1, g.id)
    requires Tab(ParseRef(r1)) == Done(r2, g.sid1)
    requires Tab(ParseRef(r2)) == Done(r3, g.sid2)
    requires Tab(ParseInt(r3)) == Done(r4, g.dist)
    requires ParseVar(r4) == Done(r5, g.variance)
    requires ParseTags(r5) == Done(rest, captured) && Fields(captured) == g.tags
    ensures ParseGap(x) == Done(rest, g)
  {
  }

  lemma GroupSteps(x: string, r1: string, r2: string, rest: string, members: string, captured: string,
                   f: GroupFields)
    requires Tab(ParseOptId(x)) == Done(r1, f.id)
    requires ParseId(r1) == Done(r2, members) && SplitTerminator(members, ' ') == f.members
    requires ParseTags(r2) == Done(rest, captured) && Fields(captured) == f.tags
    ensures ParseGroup(x) == Done(rest, f)
  {
  }

  /** `parse_line` hands the text after `<letter>\t` to the parser of that kind. */
  lemma RecordLineOf(letter: char, x: string, rest: string, v: Line)
    requires RecordLetter(letter) && ParseRecord(letter, x) == Done(rest, v)
    ensures ParseLine([letter, '\t'] + x) == Done(rest, v)
  {
    assert ([letter, '\t'] + x)[2..] == x;
  }

  // Each `XRecordOf` first tells the solver that the letter differs from
  // those of the earlier arms of the dispatch, which keeps it from exploring them.

  lemma HeaderRecordOf(x: string, rest: string, h: Header)
    requires ParseHeader(x) == Done(rest, h)
    ensures ParseRecord('H', x) == Done(rest, HeaderLine(h))
  {
  }

  lemma SegmentRecordOf(x: string, rest: string, s: Segment)
    requires ParseSegment(x) == Done(rest, s)
    ensures ParseRecord('S', x) == Done(rest, SegmentLine(s))
  {
    assert 'S' != 'H';
  }

  lemma FragmentRecordOf(x: string, rest: string, f: Fragment)
    requires ParseFragment(x) == Done(rest, f)
    ensures ParseRecord('F', x) == Done(rest, FragmentLine(f))
  {
    assert 'F' != 'H' && 'F' != 'S';
  }

  lemma EdgeRecordOf(x: string, rest: string, e: Edge)
    requires ParseEdge(x) == Done(rest, e)
    ensures ParseRecord('E', x) == Done(rest, EdgeLine(e))
  {
    assert 'E' != 'H' && 'E' != 'S' && 'E' != 'F';
  }

  lemma GapRecordOf(x: string, rest: string, g: Gap)
    requires ParseGap(x) == Done(rest, g)
    ensures ParseRecord('G', x) == Done(rest, GapLine(g))
  {
    assert 'G' != 'H' && 'G' != 'S' && 'G' != 'F' && 'G' != 'E';
  }

  lemma GroupORecordOf(x: string, rest: string, f: GroupFields)
    requires ParseGroup(x) == Done(rest, f)
    ensures ParseRecord('O', x) == Done(rest, GroupOLine(GroupO(f.id, f.members, f.tags)))
  {
    assert 'O' != 'H' && 'O' != 'S' && 'O' != 'F' && 'O' != 'E' && 'O' != 'G';
  }

  lemma GroupURecordOf(x: string, rest: string, f: GroupFields)
    requires ParseGroup(x) == Done(rest, f)
    ensures ParseRecord('U', x) == Done(rest, GroupULine(GroupU(f.id, f.members, f.tags)))
  {
    assert 'U' != 'H' && 'U' != 'S' && 'U' != 'F' && 'U' != 'E' && 'U' != 'G' && 'U' != 'O';
  }

  // ---------------------------------------------------------------------
  // Records
  // ---------------------------------------------------------------------

  /** The text after `H\t`, nested to the right the way the parser reads it. */
  function HeaderBody(h: Header): string
  {
    h.version + ("\t" + Terminated(h.tags, "\t"))
  }

  lemma ParseHeaderOf(h: Header)
    requires ValidHeader(h)
    ensures ParseHeader(HeaderBody(h)) == Done("\t", h)
  {
    var t := "\t" + Terminated(h.tags, "\t");
    if h.version == "" {
      assert HeaderBody(h) == t;
      assert |t| >= 8 ==> t[..8][..6] != "VN:Z:2" by {
        if |t| >= 8 {
          assert t[..8][..6][0] == '\t';
        }
      }
    } else {
      ParseHeaderTagOf(h.version, t);
    }
    TrailingTags(h.tags);
  }

  lemma HeaderTextOf(h: Header)
    ensures HeaderText(h) == ['H', '\t'] + HeaderBody(h)
  {
  }

  lemma HeaderRoundTrip(h: Header)
    requires ValidHeader(h)
    ensures ParseLine(HeaderText(h)) == Done("\t", HeaderLine(h))
  {
    ParseHeaderOf(h);
    HeaderTextOf(h);
    HeaderRecordOf(HeaderBody(h), "\t", h);
    RecordLineOf('H', HeaderBody(h), "\t", HeaderLine(h));
  }

  function SegmentBody(s: Segment): string
  {
    s.id + ("\t" + (s.len + ("\t" + (s.sequence + ("\t" + Terminated(s.tags, "\t"))))))
  }

  lemma ParseSegmentOf(s: Segment)
    requires ValidSegment(s)
    ensures ParseSegment(SegmentBody(s)) == Done("\t", s)
  {
    var t := "\t" + Terminated(s.tags, "\t");
    var r2 := s.sequence + t;
    var r1 := s.len + ("\t" + r2);
    IdTab(s.id, r1);
    IntTab(s.len, r2);
    ParseSequenceOf(s.sequence, t);
    TrailingTags(s.tags);
    SegmentSteps(SegmentBody(s), r1, r2, t, "\t", Prefixed(s.tags, "\t"), s);
  }

  lemma SegmentTextOf(s: Segment)
    ensures SegmentText(s) == ['S', '\t'] + SegmentBody(s)
  {
  }

  lemma SegmentRoundTrip(s: Segment)
    requires ValidSegment(s)
    ensures ParseLine(SegmentText(s)) == Done("\t", SegmentLine(s))
  {
    ParseSegmentOf(s);
    SegmentTextOf(s);
    SegmentRecordOf(SegmentBody(s), "\t", s);
    RecordLineOf('S', SegmentBody(s), "\t", SegmentLine(s));
  }

  /** Four positions, an alignment and the tags: the tail shared by fragment
    * and edge lines. */
  function AlignedTail(p1: string, p2: string, p3: string, p4: string, alignment: string, tags: seq<string>): string
  {
    p1 + ("\t" + (p2 + ("\t" + (p3 + ("\t" + (p4 + ("\t" + (alignment + ("\t" + Terminated(tags, "\t"))))))))))
  }

  function FragmentBody(f: Fragment): string
  {
    f.id + ("\t" + (f.extRef + ("\t" + AlignedTail(f.sbeg, f.send, f.fbeg, f.fend, f.alignment, f.tags))))
  }

  lemma ParseFragmentOf(f: Fragment)
    requires ValidFragment(f)
    ensures ParseFragment(FragmentBody(f)) == Done("\t", f)
  {
    var t := "\t" + Terminated(f.tags, "\t");
    var r3 := f.alignment + t;
    var r2 := AlignedTail(f.sbeg, f.send, f.fbeg, f.fend, f.alignment, f.tags);
    var r1 := f.extRef + ("\t" + r2);
    IdTab(f.id, r1);
    RefTab(f.extRef, r2);
    ParsePositionsOf(Positions(f.sbeg, f.send, f.fbeg, f.fend), r3);
    AlignmentOf(f.alignment, t);
    TrailingTags(f.tags);
    FragmentSteps(FragmentBody(f), r1, r2, r3, t, "\t", Prefixed(f.tags, "\t"), f);
  }

  lemma FragmentTextOf(f: Fragment)
    ensures FragmentText(f) == ['F', '\t'] + FragmentBody(f)
  {
    ConcatAssociates("F\t" + f.id + "\t" + f.extRef + "\t" + f.sbeg + "\t" + f.send + "\t" + f.fbeg + "\t" + f.fend + "\t" + f.alignment,
      "\t",
      Terminated(f.tags, "\t"));
    ConcatAssociates("F\t" + f.id + "\t" + f.extRef + "\t" + f.sbeg + "\t" + f.send + "\t" + f.fbeg + "\t" + f.fend + "\t",
      f.alignment,
      "\t" + Terminated(f.tags, "\t"));
    ConcatAssociates("F\t" + f.id + "\t" + f.extRef + "\t" + f.sbeg + "\t" + f.send + "\t" + f.fbeg + "\t" + f.fend,
      "\t",
      f.alignment + ("\t" + Terminated(f.tags, "\t")));
    ConcatAssociates("F\t" + f.id + "\t" + f.extRef + "\t" + f.sbeg + "\t" + f.send + "\t" + f.fbeg + "\t",
      f.fend,
      "\t" + (f.alignment + ("\t" + Terminated(f.tags, "\t"))));
    ConcatAssociates("F\t" + f.id + "\t" + f.extRef + "\t" + f.sbeg + "\t" + f.send + "\t" + f.fbeg,
      "\t",
      f.fend + ("\t" + (f.alignment + ("\t" + Terminated(f.tags, "\t")))));
    ConcatAssociates("F\t" + f.id + "\t" + f.extRef + "\t" + f.sbeg + "\t" + f.send + "\t",
      f.fbeg,
      "\t" + (f.fend + ("\t" + (f.alignment + ("\t" + Terminated(f.tags, "\t"))))));
    ConcatAssociates("F\t" + f.id + "\t" + f.extRef + "\t" + f.sbeg + "\t" + f.send,
      "\t",
      f.fbeg + ("\t" + (f.fend + ("\t" + (f.alignment + ("\t" + Terminated(f.tags, "\t")))))));
    ConcatAssociates("F\t" + f.id + "\t" + f.extRef + "\t" + f.sbeg + "\t",
      f.send,
      "\t" + (f.fbeg + ("\t" + (f.fend + ("\t" + (f.alignment + ("\t" + Terminated(f.tags, "\t"))))))));
    ConcatAssociates("F\t" + f.id + "\t" + f.extRef + "\t" + f.sbeg,
      "\t",
      f.send + ("\t" + (f.fbeg + ("\t" + (f.fend + ("\t" + (f.alignment + ("\t" + Terminated(f.tags, "\t")))))))));
    ConcatAssociates("F\t" + f.id + "\t" + f.extRef + "\t",
      f.sbeg,
      "\t" + (f.send + ("\t" + (f.fbeg + ("\t" + (f.fend + ("\t" + (f.alignment + ("\t" + Terminated(f.tags, "\t"))))))))));
    ConcatAssociates("F\t" + f.id + "\t" + f.extRef,
      "\t",
      f.sbeg + ("\t" + (f.send + ("\t" + (f.fbeg + ("\t" + (f.fend + ("\t" + (f.alignment + ("\t" + Terminated(f.tags, "\t")))))))))));
    ConcatAssociates("F\t" + f.id + "\t",
      f.extRef,
      "\t" + (f.sbeg + ("\t" + (f.send + ("\t" + (f.fbeg + ("\t" + (f.fend + ("\t" + (f.alignment + ("\t" + Terminated(f.tags, "\t"))))))))))));
    ConcatAssociates("F\t" + f.id,
      "\t",
      f.extRef + ("\t" + (f.sbeg + ("\t" + (f.send + ("\t" + (f.fbeg + ("\t" + (f.fend + ("\t" + (f.alignment + ("\t" + Terminated(f.tags, "\t")))))))))))));
    ConcatAssociates("F\t",
      f.id,
      "\t" + (f.extRef + ("\t" + (f.sbeg + ("\t" + (f.send + ("\t" + (f.fbeg + ("\t" + (f.fend + ("\t" + (f.alignment + ("\t" + Terminated(f.tags, "\t"))))))))))))));
  }

  lemma FragmentRoundTrip(f: Fragment)
    requires ValidFragment(f)
    ensures ParseLine(FragmentText(f)) == Done("\t", FragmentLine(f))
  {
    ParseFragmentOf(f);
    FragmentTextOf(f);
    FragmentRecordOf(FragmentBody(f), "\t", f);
    RecordLineOf('F', FragmentBody(f), "\t", FragmentLine(f));
  }

  function EdgeBody(e: Edge): string
  {
    e.id + ("\t" + (e.sid1 + ("\t" + (e.sid2 + ("\t"
      + AlignedTail(e.beg1, e.end1, e.beg2, e.end2, e.alignment, e.tags))))))
  }

  lemma ParseEdgeOf(e: Edge)
    requires ValidEdge(e)
    ensures ParseEdge(EdgeBody(e)) == Done("\t", e)
  {
    var t := "\t" + Terminated(e.tags, "\t");
    var r4 := e.alignment + t;
    var r3 := AlignedTail(e.beg1, e.end1, e.beg2, e.end2, e.alignment, e.tags);
    var r2 := e.sid2 + ("\t" + r3);
    var r1 := e.sid1 + ("\t" + r2);
    WordTab(e.id, r1);
    RefTab(e.sid1, r2);
    RefTab(e.sid2, r3);
    ParsePositionsOf(Positions(e.beg1, e.end1, e.beg2, e.end2), r4);
    AlignmentOf(e.alignment, t);
    TrailingTags(e.tags);
    EdgeSteps(EdgeBody(e), r1, r2, r3, r4, t, "\t", Prefixed(e.tags, "\t"), e);
  }

  lemma EdgeTextOf(e: Edge)
    ensures EdgeText(e) == ['E', '\t'] + EdgeBody(e)
  {
    ConcatAssociates("E\t" + e.id + "\t" + e.sid1 + "\t" + e.sid2 + "\t" + e.beg1 + "\t" + e.end1 + "\t" + e.beg2 + "\t" + e.end2 + "\t" + e.alignment,
      "\t",
      Terminated(e.tags, "\t"));
    ConcatAssociates("E\t" + e.id + "\t" + e.sid1 + "\t" + e.sid2 + "\t" + e.beg1 + "\t" + e.end1 + "\t" + e.beg2 + "\t" + e.end2 + "\t",
      e.alignment,
      "\t" + Terminated(e.tags, "\t"));
    ConcatAssociates("E\t" + e.id + "\t" + e.sid1 + "\t" + e.sid2 + "\t" + e.beg1 + "\t" + e.end1 + "\t" + e.beg2 + "\t" + e.end2,
      "\t",
      e.alignment + ("\t" + Terminated(e.tags, "\t")));
    ConcatAssociates("E\t" + e.id + "\t" + e.sid1 + "\t" + e.sid2 + "\t" + e.beg1 + "\t" + e.end1 + "\t" + e.beg2 + "\t",
      e.end2,
      "\t" + (e.alignment + ("\t" + Terminated(e.tags, "\t"))));
    ConcatAssociates("E\t" + e.id + "\t" + e.sid1 + "\t" + e.sid2 + "\t" + e.beg1 + "\t" + e.end1 + "\t" + e.beg2,
      "\t",
      e.end2 + ("\t" + (e.alignment + ("\t" + Terminated(e.tags, "\t")))));
    ConcatAssociates("E\t" + e.id + "\t" + e.sid1 + "\t" + e.sid2 + "\t" + e.beg1 + "\t" + e.end1 + "\t",
      e.beg2,
      "\t" + (e.end2 + ("\t" + (e.alignment + ("\t" + Terminated(e.tags, "\t"))))));
    ConcatAssociates("E\t" + e.id + "\t" + e.sid1 + "\t" + e.sid2 + "\t" + e.beg1 + "\t" + e.end1,
      "\t",
      e.beg2 + ("\t" + (e.end2 + ("\t" + (e.alignment + ("\t" + Terminated(e.tags, "\t")))))));
    ConcatAssociates("E\t" + e.id + "\t" + e.sid1 + "\t" + e.sid2 + "\t" + e.beg1 + "\t",
      e.end1,
      "\t" + (e.beg2 + ("\t" + (e.end2 + ("\t" + (e.alignment + ("\t" + Terminated(e.tags, "\t"))))))));
    ConcatAssociates("E\t" + e.id + "\t" + e.sid1 + "\t" + e.sid2 + "\t" + e.beg1,
      "\t",
      e.end1 + ("\t" + (e.beg2 + ("\t" + (e.end2 + ("\t" + (e.alignment + ("\t" + Terminated(e.tags, "\t")))))))));
    ConcatAssociates("E\t" + e.id + "\t" + e.sid1 + "\t" + e.sid2 + "\t",
      e.beg1,
      "\t" + (e.end1 + ("\t" + (e.beg2 + ("\t" + (e.end2 + ("\t" + (e.alignment + ("\t" + Terminated(e.tags, "\t"))))))))));
    ConcatAssociates("E\t" + e.id + "\t" + e.sid1 + "\t" + e.sid2,
      "\t",
      e.beg1 + ("\t" + (e.end1 + ("\t" + (e.beg2 + ("\t" + (e.end2 + ("\t" + (e.alignment + ("\t" + Terminated(e.tags, "\t")))))))))));
    ConcatAssociates("E\t" + e.id + "\t" + e.sid1 + "\t",
      e.sid2,
      "\t" + (e.beg1 + ("\t" + (e.end1 + ("\t" + (e.beg2 + ("\t" + (e.end2 + ("\t" + (e.alignment + ("\t" + Terminated(e.tags, "\t"))))))))))));
    ConcatAssociates("E\t" + e.id + "\t" + e.sid1,
      "\t",
      e.sid2 + ("\t" + (e.beg1 + ("\t" + (e.end1 + ("\t" + (e.beg2 + ("\t" + (e.end2 + ("\t" + (e.alignment + ("\t" + Terminated(e.tags, "\t")))))))))))));
    ConcatAssociates("E\t" + e.id + "\t",
      e.sid1,
      "\t" + (e.sid2 + ("\t" + (e.beg1 + ("\t" + (e.end1 + ("\t" + (e.beg2 + ("\t" + (e.end2 + ("\t" + (e.alignment + ("\t" + Terminated(e.tags, "\t"))))))))))))));
    ConcatAssociates("E\t" + e.id,
      "\t",
      e.sid1 + ("\t" + (e.sid2 + ("\t" + (e.beg1 + ("\t" + (e.end1 + ("\t" + (e.beg2 + ("\t" + (e.end2 + ("\t" + (e.alignment + ("\t" + Terminated(e.tags, "\t")))))))))))))));
    ConcatAssociates("E\t",
      e.id,
      "\t" + (e.sid1 + ("\t" + (e.sid2 + ("\t" + (e.beg1 + ("\t" + (e.end1 + ("\t" + (e.beg2 + ("\t" + (e.end2 + ("\t" + (e.alignment + ("\t" + Terminated(e.tags, "\t"))))))))))))))));
  }

  lemma EdgeRoundTrip(e: Edge)
    requires ValidEdge(e)
    ensures ParseLine(EdgeText(e)) == Done("\t", EdgeLine(e))
  {
    ParseEdgeOf(e);
    EdgeTextOf(e);
    EdgeRecordOf(EdgeBody(e), "\t", e);
    RecordLineOf('E', EdgeBody(e), "\t", EdgeLine(e));
  }

  function GapBody(g: Gap): string
  {
    g.id + ("\t" + (g.sid1 + ("\t" + (g.sid2 + ("\t" + (g.dist + ("\t" + (g.variance
      + ("\t" + Terminated(g.tags, "\t"))))))))))
  }

  lemma ParseGapOf(g: Gap)
    requires ValidGap(g)
    ensures ParseGap(GapBody(g)) == Done("\t", g)
  {
    var t := "\t" + Terminated(g.tags, "\t");
    var r4 := g.variance + t;
    var r3 := g.dist + ("\t" + r4);
    var r2 := g.sid2 + ("\t" + r3);
    var r1 := g.sid1 + ("\t" + r2);
    WordTab(g.id, r1);
    RefTab(g.sid1, r2);
    RefTab(g.sid2, r3);
    IntTab(g.dist, r4);
    ParseVarOf(g.variance, t);
    TrailingTags(g.tags);
    GapSteps(GapBody(g), r1, r2, r3, r4, t, "\t", Prefixed(g.tags, "\t"), g);
  }

  lemma GapTextOf(g: Gap)
    ensures GapText(g) == ['G', '\t'] + GapBody(g)
  {
    ConcatAssociates("G\t" + g.id + "\t" + g.sid1 + "\t" + g.sid2 + "\t" + g.dist + "\t" + g.variance,
      "\t",
      Terminated(g.tags, "\t"));
    ConcatAssociates("G\t" + g.id + "\t" + g.sid1 + "\t" + g.sid2 + "\t" + g.dist + "\t",
      g.variance,
      "\t" + Terminated(g.tags, "\t"));
    ConcatAssociates("G\t" + g.id + "\t" + g.sid1 + "\t" + g.sid2 + "\t" + g.dist,
      "\t",
      g.variance + ("\t" + Terminated(g.tags, "\t")));
    ConcatAssociates("G\t" + g.id + "\t" + g.sid1 + "\t" + g.sid2 + "\t",
      g.dist,
      "\t" + (g.variance + ("\t" + Terminated(g.tags, "\t"))));
    ConcatAssociates("G\t" + g.id + "\t" + g.sid1 + "\t" + g.sid2,
      "\t",
      g.dist + ("\t" + (g.variance + ("\t" + Terminated(g.tags, "\t")))));
    ConcatAssociates("G\t" + g.id + "\t" + g.sid1 + "\t",
      g.sid2,
      "\t" + (g.dist + ("\t" + (g.variance + ("\t" + Terminated(g.tags, "\t"))))));
    ConcatAssociates("G\t" + g.id + "\t" + g.sid1,
      "\t",
      g.sid2 + ("\t" + (g.dist + ("\t" + (g.variance + ("\t" + Terminated(g.tags, "\t")))))));
    ConcatAssociates("G\t" + g.id + "\t",
      g.sid1,
      "\t" + (g.sid2 + ("\t" + (g.dist + ("\t" + (g.variance + ("\t" + Terminated(g.tags, "\t"))))))));
    ConcatAssociates("G\t" + g.id,
      "\t",
      g.sid1 + ("\t" + (g.sid2 + ("\t" + (g.dist + ("\t" + (g.variance + ("\t" + Terminated(g.tags, "\t")))))))));
    ConcatAssociates("G\t",
      g.id,
      "\t" + (g.sid1 + ("\t" + (g.sid2 + ("\t" + (g.dist + ("\t" + (g.variance + ("\t" + Terminated(g.tags, "\t"))))))))));
  }

  lemma GapRoundTrip(g: Gap)
    requires ValidGap(g)
    ensures ParseLine(GapText(g)) == Done("\t", GapLine(g))
  {
    ParseGapOf(g);
    GapTextOf(g);
    GapRecordOf(GapBody(g), "\t", g);
    RecordLineOf('G', GapBody(g), "\t", GapLine(g));
  }

  // ---------------------------------------------------------------------
  // Groups
  // ---------------------------------------------------------------------

  /** Members separated by single spaces are read as one id-shaped field
    * that splits back into the members. */
  lemma MembersOf(ms: seq<string>, rest: string)
    requires |ms| > 0 && AllWords(ms)
    requires rest == [] || !Printable(rest[0])
    requires !(|rest| >= 2 && rest[0] == ' ' && Printable(rest[1]))
    ensures ParseId(Joined(ms, " ") + rest) == Done(rest, Joined(ms, " "))
    ensures SplitTerminator(Joined(ms, " "), ' ') == ms
  {
    ParseIdOf(ms, rest);
    forall i | 0 <= i < |ms| ensures ' ' !in ms[i] {
      assert Word(ms[i]);
    }
    SplitTerminatorOfJoined(ms, ' ');
  }

  /** Every item followed by the separator is the joined items plus one separator. */
  lemma TerminatedIsJoined(xs: seq<string>, sep: string)
    requires |xs| > 0
    ensures Terminated(xs, sep) == Joined(xs, sep) + sep
  {
    SeparatorThenTerminated(xs[1..], sep);
  }

  /** The text after `O\t` or `U\t` as the corrected display writes it. */
  function GroupBody(id: string, members: seq<string>, tags: seq<string>): string
  {
    id + ("\t" + (Joined(members, " ") + ("\t" + Terminated(tags, "\t"))))
  }

  lemma ParseGroupOf(id: string, members: seq<string>, tags: seq<string>)
    requires Word(id) && |members| > 0 && AllWords(members) && AllTags(tags)
    ensures ParseGroup(GroupBody(id, members, tags)) == Done("\t", GroupFields(id, members, tags))
  {
    var t := "\t" + Terminated(tags, "\t");
    var r1 := Joined(members, " ") + t;
    WordTab(id, r1);
    MembersOf(members, t);
    TrailingTags(tags);
    GroupSteps(GroupBody(id, members, tags), r1, t, "\t", Joined(members, " "), Prefixed(tags, "\t"),
      GroupFields(id, members, tags));
  }

  lemma GroupOTextOf(o: GroupO)
    ensures GroupOText(o) == ['O', '\t'] + GroupBody(o.id, o.members, o.tags)
  {
  }

  lemma GroupUTextOf(u: GroupU)
    ensures GroupUText(u) == ['U', '\t'] + GroupBody(u.id, u.members, u.tags)
  {
  }

  /** The corrected ordered-group line reads back as the group. */
  lemma GroupORoundTrip(o: GroupO)
    requires ValidGroupO(o)
    ensures ParseLine(GroupOText(o)) == Done("\t", GroupOLine(o))
  {
    ParseGroupOf(o.id, o.members, o.tags);
    GroupOTextOf(o);
    GroupORecordOf(GroupBody(o.id, o.members, o.tags), "\t", GroupFields(o.id, o.members, o.tags));
    RecordLineOf('O', GroupBody(o.id, o.members, o.tags), "\t", GroupOLine(o));
  }

  /** The corrected unordered-group line reads back as the group. */
  lemma GroupURoundTrip(u: GroupU)
    requires ValidGroupU(u)
    ensures ParseLine(GroupUText(u)) == Done("\t", GroupULine(u))
  {
    ParseGroupOf(u.id, u.members, u.tags);
    GroupUTextOf(u);
    GroupURecordOf(GroupBody(u.id, u.members, u.tags), "\t", GroupFields(u.id, u.members, u.tags));
    RecordLineOf('U', GroupBody(u.id, u.members, u.tags), "\t", GroupULine(u));
  }

  /** The text after `O\t` or `U\t` as the source's display writes it: a space
    * after every member. */
  function GroupBodyAsWritten(id: string, members: seq<string>, tags: seq<string>): string
  {
    id + ("\t" + (Terminated(members, " ") + ("\t" + Terminated(tags, "\t"))))
  }

  /** A space is neither a tag nor a tab: no tag is read from it. */
  lemma NoTagsAfterSpace(rest: string)
    ensures ParseTags(" " + rest) == Done(" " + rest, "")
    ensures Fields("") == []
  {
    assert SplitTerminator("", '\t') == [];
  }

  lemma GroupBodyAsWrittenIs(id: string, members: seq<string>, tags: seq<string>)
    requires |members| > 0
    ensures GroupBodyAsWritten(id, members, tags)
      == id + ("\t" + (Joined(members, " ") + (" \t" + Terminated(tags, "\t"))))
  {
    TerminatedIsJoined(members, " ");
  }

  /** The member field stops before the space that ends it, and the tag list
    * cannot start at that space, so no tag is read. */
  lemma ParseGroupAsWritten(id: string, members: seq<string>, tags: seq<string>)
    requires Word(id) && |members| > 0 && AllWords(members)
    ensures ParseGroup(GroupBodyAsWritten(id, members, tags))
      == Done(" \t" + Terminated(tags, "\t"), GroupFields(id, members, []))
  {
    var t := " \t" + Terminated(tags, "\t");
    var r1 := Joined(members, " ") + t;
    GroupBodyAsWrittenIs(id, members, tags);
    WordTab(id, r1);
    MembersOf(members, t);
    NoTagsAfterSpace("\t" + Terminated(tags, "\t"));
    GroupSteps(GroupBodyAsWritten(id, members, tags), r1, t, t, Joined(members, " "), "",
      GroupFields(id, members, []));
  }

  lemma GroupOTextAsWrittenOf(o: GroupO)
    ensures GroupOTextAsWritten(o) == ['O', '\t'] + GroupBodyAsWritten(o.id, o.members, o.tags)
  {
  }

  lemma GroupUTextAsWrittenOf(u: GroupU)
    ensures GroupUTextAsWritten(u) == ['U', '\t'] + GroupBodyAsWritten(u.id, u.members, u.tags)
  {
  }

  /** An ordered-group line printed by the source parses without its tags:
    * a group with tags does not read back as itself. */
  lemma GroupOTagsLost(o: GroupO)
    requires ValidGroupO(o)
    ensures ParseLine(GroupOTextAsWritten(o))
      == Done(" \t" + Terminated(o.tags, "\t"), GroupOLine(GroupO(o.id, o.members, [])))
    ensures o.tags != [] ==> ParseLine(GroupOTextAsWritten(o)).value != GroupOLine(o)
  {
    var x := GroupBodyAsWritten(o.id, o.members, o.tags);
    ParseGroupAsWritten(o.id, o.members, o.tags);
    GroupOTextAsWrittenOf(o);
    GroupORecordOf(x, " \t" + Terminated(o.tags, "\t"), GroupFields(o.id, o.members, []));
    RecordLineOf('O', x, " \t" + Terminated(o.tags, "\t"), GroupOLine(GroupO(o.id, o.members, [])));
  }

  /** The same loss for unordered groups. */
  lemma GroupUTagsLost(u: GroupU)
    requires ValidGroupU(u)
    ensures ParseLine(GroupUTextAsWritten(u))
      == Done(" \t" + Terminated(u.tags, "\t"), GroupULine(GroupU(u.id, u.members, [])))
    ensures u.tags != [] ==> ParseLine(GroupUTextAsWritten(u)).value != GroupULine(u)
  {
    var x := GroupBodyAsWritten(u.id, u.members, u.tags);
    ParseGroupAsWritten(u.id, u.members, u.tags);
    GroupUTextAsWrittenOf(u);
    GroupURecordOf(x, " \t" + Terminated(u.tags, "\t"), GroupFields(u.id, u.members, []));
    RecordLineOf('U', x, " \t" + Terminated(u.tags, "\t"), GroupULine(GroupU(u.id, u.members, [])));
  }

  // ---------------------------------------------------------------------
  // Whole documents
  // ---------------------------------------------------------------------

  /** The text, parsed as a line, gives the line. */
  predicate LineReads(text: string, l: Line)
  {
    |text| > 0 && ParseLine(text).Done? && ParseLine(text).value == l
  }

  /** Each text, parsed as a line, gives the line at the same position. */
  predicate ReadsAs(texts: seq<string>, ls: seq<Line>)
  {
    Pointwise(texts, ls, LineReads)
  }

  /** The lines added to the document one after another. */
  function AddLines(acc: Gfa2, ls: seq<Line>): Gfa2
    decreases |ls|
  {
    if ls == [] then acc else AddLines(AddLine(acc, ls[0]), ls[1..])
  }

  /** Reading a line that parses as `l`. */
  lemma ParseFromStep(acc: Gfa2, lines: seq<string>, first: string, l: Line, others: seq<string>)
    requires NoEmptyLine(lines) && lines != [] && lines[0] == first && lines[1..] == others
    requires LineReads(first, l)
    ensures NoEmptyLine(others)
    ensures ParseFrom(acc, lines) == ParseFrom(AddLine(acc, l), others)
  {
    assert forall i :: 0 <= i < |lines[1..]| ==> lines[1..][i] == lines[i + 1];
  }

  lemma NoEmptyLineCons(lines: seq<string>)
    requires lines != [] && |lines[0]| > 0 && NoEmptyLine(lines[1..])
    ensures NoEmptyLine(lines)
  {
    forall i | 1 <= i < |lines| ensures |lines[i]| > 0 {
      assert lines[i] == lines[1..][i - 1];
    }
  }

  lemma {:induction false} ParseFromReads(acc: Gfa2, texts: seq<string>, ls: seq<Line>, rest: seq<string>)
    requires ReadsAs(texts, ls) && NoEmptyLine(rest)
    ensures NoEmptyLine(texts + rest)
    ensures ParseFrom(acc, texts + rest) == ParseFrom(AddLines(acc, ls), rest)
    decreases |texts|
  {
    if texts == [] {
      assert texts + rest == rest;
    } else {
      var lines := texts + rest;
      assert lines[0] == texts[0] && lines[1..] == texts[1..] + rest;
      ParseFromReads(AddLine(acc, ls[0]), texts[1..], ls[1..], rest);
      NoEmptyLineCons(lines);
      ParseFromStep(acc, lines, texts[0], ls[0], texts[1..] + rest);
    }
  }

  lemma {:induction false} AddLinesAppend(acc: Gfa2, xs: seq<Line>, ys: seq<Line>)
    ensures AddLines(acc, xs + ys) == AddLines(AddLines(acc, xs), ys)
    decreases |xs|
  {
    if xs == [] {
      assert xs + ys == ys;
    } else {
      assert (xs + ys)[1..] == xs[1..] + ys;
      AddLinesAppend(AddLine(acc, xs[0]), xs[1..], ys);
    }
  }

  function HeaderRecords(hs: seq<Header>): (r: seq<Line>)
    ensures |r| == |hs| && forall i :: 0 <= i < |hs| ==> r[i] == HeaderLine(hs[i])
  {
    seq(|hs|, i requires 0 <= i < |hs| => HeaderLine(hs[i]))
  }

  function SegmentRecords(ss: seq<Segment>): (r: seq<Line>)
    ensures |r| == |ss| && forall i :: 0 <= i < |ss| ==> r[i] == SegmentLine(ss[i])
  {
    seq(|ss|, i requires 0 <= i < |ss| => SegmentLine(ss[i]))
  }

  function FragmentRecords(fs: seq<Fragment>): (r: seq<Line>)
    ensures |r| == |fs| && forall i :: 0 <= i < |fs| ==> r[i] == FragmentLine(fs[i])
  {
    seq(|fs|, i requires 0 <= i < |fs| => FragmentLine(fs[i]))
  }

  function EdgeRecords(es: seq<Edge>): (r: seq<Line>)
    ensures |r| == |es| && forall i :: 0 <= i < |es| ==> r[i] == EdgeLine(es[i])
  {
    seq(|es|, i requires 0 <= i < |es| => EdgeLine(es[i]))
  }

  function GapRecords(gs: seq<Gap>): (r: seq<Line>)
    ensures |r| == |gs| && forall i :: 0 <= i < |gs| ==> r[i] == GapLine(gs[i])
  {
    seq(|gs|, i requires 0 <= i < |gs| => GapLine(gs[i]))
  }

  function GroupORecords(os: seq<GroupO>): (r: seq<Line>)
    ensures |r| == |os| && forall i :: 0 <= i < |os| ==> r[i] == GroupOLine(os[i])
  {
    seq(|os|, i requires 0 <= i < |os| => GroupOLine(os[i]))
  }

  function GroupURecords(us: seq<GroupU>): (r: seq<Line>)
    ensures |r| == |us| && forall i :: 0 <= i < |us| ==> r[i] == GroupULine(us[i])
  {
    seq(|us|, i requires 0 <= i < |us| => GroupULine(us[i]))
  }

  /** The parsed form of every record line of a document, in print order. */
  function Records(g: Gfa2): seq<Line>
  {
    HeaderRecords(g.headers) + SegmentRecords(g.segments) + FragmentRecords(g.fragments)
      + EdgeRecords(g.edges) + GapRecords(g.gaps) + GroupORecords(g.groupsO) + GroupURecords(g.groupsU)
  }

  lemma {:induction false} AddHeaders(g: Gfa2, hs: seq<Header>)
    ensures AddLines(g, HeaderRecords(hs)) == g.(headers := g.headers + hs)
    decreases |hs|
  {
    if hs == [] {
      assert g.headers + hs == g.headers;
    } else {
      assert HeaderRecords(hs)[1..] == HeaderRecords(hs[1..]);
      AddHeaders(g.(headers := g.headers + [hs[0]]), hs[1..]);
      assert g.headers + [hs[0]] + hs[1..] == g.headers + hs;
    }
  }

  lemma {:induction false} AddSegments(g: Gfa2, ss: seq<Segment>)
    ensures AddLines(g, SegmentRecords(ss)) == g.(segments := g.segments + ss)
    decreases |ss|
  {
    if ss == [] {
      assert g.segments + ss == g.segments;
    } else {
      assert SegmentRecords(ss)[1..] == SegmentRecords(ss[1..]);
      AddSegments(g.(segments := g.segments + [ss[0]]), ss[1..]);
      assert g.segments + [ss[0]] + ss[1..] == g.segments + ss;
    }
  }

  lemma {:induction false} AddFragments(g: Gfa2, fs: seq<Fragment>)
    ensures AddLines(g, FragmentRecords(fs)) == g.(fragments := g.fragments + fs)
    decreases |fs|
  {
    if fs == [] {
      assert g.fragments + fs == g.fragments;
    } else {
      assert FragmentRecords(fs)[1..] == FragmentRecords(fs[1..]);
      AddFragments(g.(fragments := g.fragments + [fs[0]]), fs[1..]);
      assert g.fragments + [fs[0]] + fs[1..] == g.fragments + fs;
    }
  }

  lemma {:induction false} AddEdges(g: Gfa2, es: seq<Edge>)
    ensures AddLines(g, EdgeRecords(es)) == g.(edges := g.edges + es)
    decreases |es|
  {
    if es == [] {
      assert g.edges + es == g.edges;
    } else {
      assert EdgeRecords(es)[1..] == EdgeRecords(es[1..]);
      AddEdges(g.(edges := g.edges + [es[0]]), es[1..]);
      assert g.edges + [es[0]] + es[1..] == g.edges + es;
    }
  }

  lemma {:induction false} AddGaps(g: Gfa2, gs: seq<Gap>)
    ensures AddLines(g, GapRecords(gs)) == g.(gaps := g.gaps + gs)
    decreases |gs|
  {
    if gs == [] {
      assert g.gaps + gs == g.gaps;
    } else {
      assert GapRecords(gs)[1..] == GapRecords(gs[1..]);
      AddGaps(g.(gaps := g.gaps + [gs[0]]), gs[1..]);
      assert g.gaps + [gs[0]] + gs[1..] == g.gaps + gs;
    }
  }

  lemma {:induction false} AddGroupsO(g: Gfa2, os: seq<GroupO>)
    ensures AddLines(g, GroupORecords(os)) == g.(groupsO := g.groupsO + os)
    decreases |os|
  {
    if os == [] {
      assert g.groupsO + os == g.groupsO;
    } else {
      assert GroupORecords(os)[1..] == GroupORecords(os[1..]);
      AddGroupsO(g.(groupsO := g.groupsO + [os[0]]), os[1..]);
      assert g.groupsO + [os[0]] + os[1..] == g.groupsO + os;
    }
  }

  lemma {:induction false} AddGroupsU(g: Gfa2, us: seq<GroupU>)
    ensures AddLines(g, GroupURecords(us)) == g.(groupsU := g.groupsU + us)
    decreases |us|
  {
    if us == [] {
      assert g.groupsU + us == g.groupsU;
    } else {
      assert GroupURecords(us)[1..] == GroupURecords(us[1..]);
      AddGroupsU(g.(groupsU := g.groupsU + [us[0]]), us[1..]);
      assert g.groupsU + [us[0]] + us[1..] == g.groupsU + us;
    }
  }

  /** Adding the records of a document without comments or custom records to
    * an empty one rebuilds it. */
  lemma AddRecords(g: Gfa2)
    requires g.comments == [] && g.customRecords == []
    ensures AddLines(NewGfa2(), Records(g)) == g
  {
    AddLinesAppend(NewGfa2(), HeaderRecords(g.headers) + SegmentRecords(g.segments) + FragmentRecords(g.fragments) + EdgeRecords(g.edges) + GapRecords(g.gaps) + GroupORecords(g.groupsO), GroupURecords(g.groupsU));
    AddLinesAppend(NewGfa2(), HeaderRecords(g.headers) + SegmentRecords(g.segments) + FragmentRecords(g.fragments) + EdgeRecords(g.edges) + GapRecords(g.gaps), GroupORecords(g.groupsO));
    AddLinesAppend(NewGfa2(), HeaderRecords(g.headers) + SegmentRecords(g.segments) + FragmentRecords(g.fragments) + EdgeRecords(g.edges), GapRecords(g.gaps));
    AddLinesAppend(NewGfa2(), HeaderRecords(g.headers) + SegmentRecords(g.segments) + FragmentRecords(g.fragments), EdgeRecords(g.edges));
    AddLinesAppend(NewGfa2(), HeaderRecords(g.headers) + SegmentRecords(g.segments), FragmentRecords(g.fragments));
    AddLinesAppend(NewGfa2(), HeaderRecords(g.headers), SegmentRecords(g.segments));
    var e0 := NewGfa2();
    AddHeaders(e0, g.headers);
    assert e0.headers + g.headers == g.headers;
    var e1 := e0.(headers := g.headers);
    AddSegments(e1, g.segments);
    assert e1.segments + g.segments == g.segments;
    var e2 := e1.(segments := g.segments);
    AddFragments(e2, g.fragments);
    assert e2.fragments + g.fragments == g.fragments;
    var e3 := e2.(fragments := g.fragments);
    AddEdges(e3, g.edges);
    assert e3.edges + g.edges == g.edges;
    var e4 := e3.(edges := g.edges);
    AddGaps(e4, g.gaps);
    assert e4.gaps + g.gaps == g.gaps;
    var e5 := e4.(gaps := g.gaps);
    AddGroupsO(e5, g.groupsO);
    assert e5.groupsO + g.groupsO == g.groupsO;
    var e6 := e5.(groupsO := g.groupsO);
    AddGroupsU(e6, g.groupsU);
    assert e6.groupsU + g.groupsU == g.groupsU;
    assert e6.(groupsU := g.groupsU) == g;
  }

  lemma HeaderLinesRead(hs: seq<Header>)
    requires forall i :: 0 <= i < |hs| ==> ValidHeader(hs[i])
    ensures ReadsAs(HeaderLines(hs), HeaderRecords(hs))
  {
    forall i | 0 <= i < |hs|
      ensures LineReads(HeaderLines(hs)[i], HeaderRecords(hs)[i])
    {
      HeaderRoundTrip(hs[i]);
    }
    PointwiseOf(HeaderLines(hs), HeaderRecords(hs), LineReads);
  }

  lemma SegmentLinesRead(ss: seq<Segment>)
    requires forall i :: 0 <= i < |ss| ==> ValidSegment(ss[i])
    ensures ReadsAs(SegmentLines(ss), SegmentRecords(ss))
  {
    forall i | 0 <= i < |ss|
      ensures LineReads(SegmentLines(ss)[i], SegmentRecords(ss)[i])
    {
      SegmentRoundTrip(ss[i]);
    }
    PointwiseOf(SegmentLines(ss), SegmentRecords(ss), LineReads);
  }

  lemma FragmentLinesRead(fs: seq<Fragment>)
    requires forall i :: 0 <= i < |fs| ==> ValidFragment(fs[i])
    ensures ReadsAs(FragmentLines(fs), FragmentRecords(fs))
  {
    forall i | 0 <= i < |fs|
      ensures LineReads(FragmentLines(fs)[i], FragmentRecords(fs)[i])
    {
      FragmentRoundTrip(fs[i]);
    }
    PointwiseOf(FragmentLines(fs), FragmentRecords(fs), LineReads);
  }

  lemma EdgeLinesRead(es: seq<Edge>)
    requires forall i :: 0 <= i < |es| ==> ValidEdge(es[i])
    ensures ReadsAs(EdgeLines(es), EdgeRecords(es))
  {
    forall i | 0 <= i < |es|
      ensures LineReads(EdgeLines(es)[i], EdgeRecords(es)[i])
    {
      EdgeRoundTrip(es[i]);
    }
    PointwiseOf(EdgeLines(es), EdgeRecords(es), LineReads);
  }

  lemma GapLinesRead(gs: seq<Gap>)
    requires forall i :: 0 <= i < |gs| ==> ValidGap(gs[i])
    ensures ReadsAs(GapLines(gs), GapRecords(gs))
  {
    forall i | 0 <= i < |gs|
      ensures LineReads(GapLines(gs)[i], GapRecords(gs)[i])
    {
      GapRoundTrip(gs[i]);
    }
    PointwiseOf(GapLines(gs), GapRecords(gs), LineReads);
  }

  /** The corrected ordered-group lines read back as the groups. */
  lemma CorrectedGroupOLinesRead(os: seq<GroupO>)
    requires forall i :: 0 <= i < |os| ==> ValidGroupO(os[i])
    ensures ReadsAs(CorrectedGroupOLines(os), GroupORecords(os))
  {
    forall i | 0 <= i < |os|
      ensures LineReads(CorrectedGroupOLines(os)[i], GroupORecords(os)[i])
    {
      GroupORoundTrip(os[i]);
    }
    PointwiseOf(CorrectedGroupOLines(os), GroupORecords(os), LineReads);
  }

  /** The corrected unordered-group lines read back as the groups. */
  lemma CorrectedGroupULinesRead(us: seq<GroupU>)
    requires forall i :: 0 <= i < |us| ==> ValidGroupU(us[i])
    ensures ReadsAs(CorrectedGroupULines(us), GroupURecords(us))
  {
    forall i | 0 <= i < |us|
      ensures LineReads(CorrectedGroupULines(us)[i], GroupURecords(us)[i])
    {
      GroupURoundTrip(us[i]);
    }
    PointwiseOf(CorrectedGroupULines(us), GroupURecords(us), LineReads);
  }

  /** The ordered groups with their tags dropped. */
  function DropOTags(os: seq<GroupO>): (r: seq<GroupO>)
    ensures |r| == |os| && forall i :: 0 <= i < |os| ==> r[i] == GroupO(os[i].id, os[i].members, [])
  {
    seq(|os|, i requires 0 <= i < |os| => GroupO(os[i].id, os[i].members, []))
  }

  /** The unordered groups with their tags dropped. */
  function DropUTags(us: seq<GroupU>): (r: seq<GroupU>)
    ensures |r| == |us| && forall i :: 0 <= i < |us| ==> r[i] == GroupU(us[i].id, us[i].members, [])
  {
    seq(|us|, i requires 0 <= i < |us| => GroupU(us[i].id, us[i].members, []))
  }

  /** A document with the tags of every group dropped. */
  function TagsDropped(g: Gfa2): Gfa2
  {
    g.(groupsO := DropOTags(g.groupsO), groupsU := DropUTags(g.groupsU))
  }

  /** No group of the document has a tag. */
  predicate NoGroupTags(g: Gfa2)
  {
    (forall i :: 0 <= i < |g.groupsO| ==> g.groupsO[i].tags == [])
    && (forall i :: 0 <= i < |g.groupsU| ==> g.groupsU[i].tags == [])
  }

  /** Dropping the group tags changes a document exactly when some group has a tag. */
  lemma TagsDroppedSame(g: Gfa2)
    ensures TagsDropped(g) == g <==> NoGroupTags(g)
  {
    if NoGroupTags(g) {
      assert DropOTags(g.groupsO) == g.groupsO;
      assert DropUTags(g.groupsU) == g.groupsU;
    } else if i :| 0 <= i < |g.groupsO| && g.groupsO[i].tags != [] {
      assert DropOTags(g.groupsO)[i] != g.groupsO[i];
    } else {
      var i :| 0 <= i < |g.groupsU| && g.groupsU[i].tags != [];
      assert DropUTags(g.groupsU)[i] != g.groupsU[i];
    }
  }

  /** The ordered-group lines the source prints read back without their tags. */
  lemma GroupOLinesRead(os: seq<GroupO>)
    requires forall i :: 0 <= i < |os| ==> ValidGroupO(os[i])
    ensures ReadsAs(GroupOLines(os), GroupORecords(DropOTags(os)))
  {
    forall i | 0 <= i < |os|
      ensures LineReads(GroupOLines(os)[i], GroupORecords(DropOTags(os))[i])
    {
      GroupOTagsLost(os[i]);
    }
    PointwiseOf(GroupOLines(os), GroupORecords(DropOTags(os)), LineReads);
  }

  /** The unordered-group lines the source prints read back without their tags. */
  lemma GroupULinesRead(us: seq<GroupU>)
    requires forall i :: 0 <= i < |us| ==> ValidGroupU(us[i])
    ensures ReadsAs(GroupULines(us), GroupURecords(DropUTags(us)))
  {
    forall i | 0 <= i < |us|
      ensures LineReads(GroupULines(us)[i], GroupURecords(DropUTags(us))[i])
    {
      GroupUTagsLost(us[i]);
    }
    PointwiseOf(GroupULines(us), GroupURecords(DropUTags(us)), LineReads);
  }

  /** The records of the five sections before the groups, in print order. */
  function LeadRecords(g: Gfa2): seq<Line>
  {
    HeaderRecords(g.headers) + SegmentRecords(g.segments) + FragmentRecords(g.fragments)
      + EdgeRecords(g.edges) + GapRecords(g.gaps)
  }

  /** The lines before the groups read back as their records. */
  lemma LeadLinesRead(g: Gfa2)
    requires ValidGfa2(g)
    ensures ReadsAs(LeadLines(g), LeadRecords(g))
  {
    HeaderLinesRead(g.headers);
    SegmentLinesRead(g.segments);
    FragmentLinesRead(g.fragments);
    EdgeLinesRead(g.edges);
    GapLinesRead(g.gaps);
    PointwiseAppend(HeaderLines(g.headers),
      HeaderRecords(g.headers),
      SegmentLines(g.segments), SegmentRecords(g.segments), LineReads);
    PointwiseAppend(HeaderLines(g.headers) + SegmentLines(g.segments),
      HeaderRecords(g.headers) + SegmentRecords(g.segments),
      FragmentLines(g.fragments), FragmentRecords(g.fragments), LineReads);
    PointwiseAppend(HeaderLines(g.headers) + SegmentLines(g.segments) + FragmentLines(g.fragments),
      HeaderRecords(g.headers) + SegmentRecords(g.segments) + FragmentRecords(g.fragments),
      EdgeLines(g.edges), EdgeRecords(g.edges), LineReads);
    PointwiseAppend(HeaderLines(g.headers) + SegmentLines(g.segments) + FragmentLines(g.fragments) + EdgeLines(g.edges),
      HeaderRecords(g.headers) + SegmentRecords(g.segments) + FragmentRecords(g.fragments) + EdgeRecords(g.edges),
      GapLines(g.gaps), GapRecords(g.gaps), LineReads);
  }

  /** The lead lines followed by two group sections read as the lead records
    * followed by the groups' records. */
  lemma SectionsRead(g: Gfa2, os: seq<string>, ors: seq<Line>, us: seq<string>, urs: seq<Line>)
    requires ValidGfa2(g) && ReadsAs(os, ors) && ReadsAs(us, urs)
    ensures ReadsAs(LeadLines(g) + os + us, LeadRecords(g) + ors + urs)
  {
    LeadLinesRead(g);
    PointwiseAppend(LeadLines(g), LeadRecords(g), os, ors, LineReads);
    PointwiseAppend(LeadLines(g) + os, LeadRecords(g) + ors, us, urs, LineReads);
  }

  /** Every corrected record line of a well-formed document reads back as its record. */
  lemma RecordLinesRead(g: Gfa2)
    requires ValidGfa2(g)
    ensures ReadsAs(CorrectedRecordLines(g), Records(g))
  {
    CorrectedGroupOLinesRead(g.groupsO);
    CorrectedGroupULinesRead(g.groupsU);
    SectionsRead(g, CorrectedGroupOLines(g.groupsO), GroupORecords(g.groupsO),
      CorrectedGroupULines(g.groupsU), GroupURecords(g.groupsU));
  }

  /** Every record line the source prints for a well-formed document reads
    * back as its record, except that groups come back without their tags. */
  lemma RecordLinesReadAsWritten(g: Gfa2)
    requires ValidGfa2(g)
    ensures ReadsAs(RecordLines(g), Records(TagsDropped(g)))
  {
    GroupOLinesRead(g.groupsO);
    GroupULinesRead(g.groupsU);
    SectionsRead(g, GroupOLines(g.groupsO), GroupORecords(DropOTags(g.groupsO)),
      GroupULines(g.groupsU), GroupURecords(DropUTags(g.groupsU)));
  }

  /** Reading the corrected record lines of a well-formed document, in print
    * order, rebuilds the document. */
  lemma DocumentRoundTrip(g: Gfa2)
    requires ValidGfa2(g)
    ensures NoEmptyLine(CorrectedRecordLines(g)) && ParseFrom(NewGfa2(), CorrectedRecordLines(g)) == Some(g)
  {
    RecordLinesRead(g);
    assert NoEmptyLine([]);
    ParseFromReads(NewGfa2(), CorrectedRecordLines(g), Records(g), []);
    assert CorrectedRecordLines(g) + [] == CorrectedRecordLines(g);
    AddRecords(g);
  }

  /** Reading the record lines the source prints, in print order, rebuilds
    * the document with every group's tags dropped: the document comes back
    * exactly when no group has a tag. */
  lemma DocumentDropsGroupTags(g: Gfa2)
    requires ValidGfa2(g)
    ensures NoEmptyLine(RecordLines(g)) && ParseFrom(NewGfa2(), RecordLines(g)) == Some(TagsDropped(g))
    ensures ParseFrom(NewGfa2(), RecordLines(g)) == Some(g) <==> NoGroupTags(g)
  {
    RecordLinesReadAsWritten(g);
    assert NoEmptyLine([]);
    ParseFromReads(NewGfa2(), RecordLines(g), Records(TagsDropped(g)), []);
    assert RecordLines(g) + [] == RecordLines(g);
    AddRecords(TagsDropped(g));
    TagsDroppedSame(g);
  }
}
