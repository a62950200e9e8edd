/** The GFA 1.0 line parser. Every field is read by an anchored regular
  * expression (nom's `re_find!`, leftmost-first, greedy); here each one is a
  * hand-written recogniser that returns the matched prefix and the rest of the
  * input, together with the language it recognises and a lemma that it reads
  * back exactly the text the records print. */
module ParserGfa1 {
  import opened Text
  import opened Gfa1

  // ---------------------------------------------------------------------
  // Field recognisers
  // ---------------------------------------------------------------------

  /** `[!-)+-<>-~]`: printable, not `*` and not `=`. */
  predicate NameStart(c: char) { Printable(c) && c != '*' && c != '=' }

  /** The language of `^([!-)+-<>-~][!-~]*)`. */
  predicate IsName(w: string) { |w| > 0 && NameStart(w[0]) && All(w, Printable) }

  /** `parse_name`. */
  function ParseName(input: string): (r: IResult<string>)
    ensures r.Error? <==> input == [] || !NameStart(input[0])
    ensures r.Done? ==> input == r.value + r.rest && IsName(r.value)
    ensures r.Done? ==> r.rest == [] || !Printable(r.rest[0])
  {
    if input == [] || !NameStart(input[0]) then Error
    else
      var n := 1 + Span(input[1..], Printable);
      assert input[..n] == [input[0]] + input[1..][..n - 1];
      Done(input[n..], input[..n])
  }

  lemma ParseNameOf(w: string, rest: string)
    requires IsName(w) && (rest == [] || !Printable(rest[0]))
    ensures ParseName(w + rest) == Done(rest, w)
  {
    assert (w + rest)[1..] == w[1..] + rest;
    SpanOfRun(w[1..], rest, Printable);
  }

  /** The language of `^(VN:Z:1.0)?` where `.` is any character but a newline. */
  predicate IsVersion(v: string) { |v| == 8 && v[..6] == "VN:Z:1" && v[6] != '\n' && v[7] == '0' }

  /** `parse_header_tag`: the version tag, or nothing. */
  function ParseHeaderTag(input: string): (r: IResult<string>)
    ensures r.Done? && input == r.value + r.rest
    ensures r.value == "" || IsVersion(r.value)
    ensures r.value == "" <==> !(|input| >= 8 && IsVersion(input[..8]))
  {
    if |input| >= 8 && IsVersion(input[..8]) then Done(input[8..], input[..8]) else Done(input, "")
  }

  /** `[A-Za-z=.]` */
  predicate SequenceChar(c: char) { Letter(c) || c == '=' || c == '.' }

  /** The language of `^(\*|[A-Za-z=.]+)`. */
  predicate IsSequence(w: string) { w == "*" || (|w| > 0 && All(w, SequenceChar)) }

  /** `parse_sequence`. */
  function ParseSequence(input: string): (r: IResult<string>)
    ensures r.Error? <==> input == [] || (input[0] != '*' && !SequenceChar(input[0]))
    ensures r.Done? ==> input == r.value + r.rest && IsSequence(r.value)
    ensures r.Done? && r.value != "*" ==> r.rest == [] || !SequenceChar(r.rest[0])
  {
    if |input| > 0 && input[0] == '*' then Done(input[1..], "*")
    else
      var n := Span(input, SequenceChar);
      if n == 0 then Error else Done(input[n..], input[..n])
  }

  lemma ParseSequenceOf(w: string, rest: string)
    requires IsSequence(w) && (rest == [] || !SequenceChar(rest[0]))
    ensures ParseSequence(w + rest) == Done(rest, w)
  {
    if w != "*" {
      SpanOfRun(w, rest, SequenceChar);
    }
  }

  /** `parse_orient`: `+` is Forward, `-` is Backward, anything else fails. */
  function ParseOrient(input: string): (r: IResult<Orientation>)
    ensures r.Done? <==> |input| > 0 && (input[0] == '+' || input[0] == '-')
    ensures r.Done? ==> input == OrientationText(r.value) + r.rest
  {
    if |input| > 0 && input[0] == '+' then Done(input[1..], Forward)
    else if |input| > 0 && input[0] == '-' then Done(input[1..], Backward)
    else Error
  }

  /** Reading the text of an orientation gives the orientation back. */
  lemma ParseOrientOf(o: Orientation, rest: string)
    ensures ParseOrient(OrientationText(o) + rest) == Done(rest, o)
  {
  }

  /** `[MIDNSHPX=]`: a CIGAR operation. */
  predicate CigarOp(c: char)
  {
    c == 'M' || c == 'I' || c == 'D' || c == 'N' || c == 'S' || c == 'H' || c == 'P' || c == 'X' || c == '='
  }

  /** Length of one `[0-9]+[MIDNSHPX=]` unit at the start of `s`, or 0. */
  function UnitLength(s: string): (n: nat)
    ensures n <= |s|
  {
    var d := Span(s, Digit);
    if 0 < d < |s| && CigarOp(s[d]) then d + 1 else 0
  }

  /** Length of the greedy `([0-9]+[MIDNSHPX=])*` at the start of `s`. */
  function CigarLength(s: string): (n: nat)
    ensures n <= |s|
    decreases |s|
  {
    var d := Span(s, Digit);
    if 0 < d < |s| && CigarOp(s[d]) then d + 1 + CigarLength(s[d + 1..]) else 0
  }

  /** One or more CIGAR units and nothing else. */
  predicate IsCigar(w: string)
    decreases |w|
  {
    var d := Span(w, Digit);
    0 < d < |w| && CigarOp(w[d]) && (d + 1 == |w| || IsCigar(w[d + 1..]))
  }

  /** The language of `^(\*|([0-9]+[MIDNSHPX=])+)`. */
  predicate IsOverlap(w: string) { w == "*" || IsCigar(w) }

  /** A unit followed by nothing or by more units is a CIGAR string. */
  lemma CigarOfUnit(s: string, d: nat, c: nat)
    requires 0 < d < |s| && All(s[..d], Digit) && CigarOp(s[d]) && d + 1 + c <= |s|
    requires c == 0 || IsCigar(s[d + 1..][..c])
    ensures IsCigar(s[..d + 1 + c])
  {
    var w := s[..d + 1 + c];
    assert w == s[..d] + w[d..] && w[d] == s[d];
    SpanOfRun(s[..d], w[d..], Digit);
    assert Span(w, Digit) == d && CigarOp(w[d]);
    assert w[d + 1..] == s[d + 1..][..c];
    assert d + 1 == |w| || IsCigar(w[d + 1..]);
  }

  /** The greedy run of CIGAR units is itself a CIGAR string. */
  lemma {:induction false} CigarLengthSound(s: string)
    ensures CigarLength(s) > 0 ==> IsCigar(s[..CigarLength(s)])
    decreases |s|
  {
    var d := Span(s, Digit);
    if 0 < d < |s| && CigarOp(s[d]) {
      var c := CigarLength(s[d + 1..]);
      assert CigarLength(s) == d + 1 + c;
      CigarLengthSound(s[d + 1..]);
      CigarOfUnit(s, d, c);
    }
  }

  /** No further CIGAR unit follows the greedy run. */
  lemma {:induction false} CigarLengthMaximal(s: string)
    ensures UnitLength(s[CigarLength(s)..]) == 0
    decreases |s|
  {
    var d := Span(s, Digit);
    if 0 < d < |s| && CigarOp(s[d]) {
      CigarLengthMaximal(s[d + 1..]);
      assert s[d + 1..][CigarLength(s[d + 1..])..] == s[CigarLength(s)..];
    } else {
      assert s[CigarLength(s)..] == s;
    }
  }

  /** `parse_overlap`: `*`, or the longest run of CIGAR units. */
  function ParseOverlap(input: string): (r: IResult<string>)
    ensures r.Error? <==> input == [] || (input[0] != '*' && UnitLength(input) == 0)
    ensures r.Done? ==> input == r.value + r.rest && |r.value| > 0
    ensures r.Done? ==> IsOverlap(r.value) && (r.value == "*" || UnitLength(r.rest) == 0)
  {
    if |input| > 0 && input[0] == '*' then Done(input[1..], "*")
    else
      var n := CigarLength(input);
      CigarLengthMaximal(input);
      CigarLengthSound(input);
      if n == 0 then Error else Done(input[n..], input[..n])
  }

  lemma {:induction false} CigarLengthOf(w: string, rest: string)
    requires IsCigar(w) && (rest == [] || !Digit(rest[0]))
    ensures CigarLength(w + rest) == |w|
    decreases |w|
  {
    var d := Span(w, Digit);
    SpanUnaffected(w, rest, Digit);
    assert (w + rest)[d] == w[d];
    assert UnitLength(w + rest) == d + 1;
    assert (w + rest)[d + 1..] == w[d + 1..] + rest;
    if d + 1 == |w| {
      assert w[d + 1..] + rest == rest;
    } else {
      CigarLengthOf(w[d + 1..], rest);
    }
  }

  lemma ParseOverlapOf(w: string, rest: string)
    requires IsOverlap(w) && (rest == [] || !Digit(rest[0]))
    ensures ParseOverlap(w + rest) == Done(rest, w)
  {
    if w != "*" {
      CigarLengthOf(w, rest);
      assert Span(w, Digit) > 0;
      assert w[0] != '*';
    }
  }

  /** The optional fields one record kind accepts: integer tags written
    * `XX:i:[-+]?[0-9]+`, possibly the hexadecimal `SH:H:[0-9A-F]+`, and one
    * text tag written `XX:Z:[ -~]+`. */
  datatype FieldSet = FieldSet(integerTags: seq<string>, hexTag: bool, textTag: string)

  /** `((LN|RC|FC|KC):i:[-+]?[0-9]+)|(SH:H:[0-9A-F]+)|(UR:Z:[ -~]+)` */
  const SEGMENT_FIELDS := FieldSet(["LN", "RC", "FC", "KC"], true, "UR")
  /** `((MQ|NM|RC|FC|KC):i:[-+]?[0-9]+)|(ID:Z:[ -~]+)` */
  const LINK_FIELDS := FieldSet(["MQ", "NM", "RC", "FC", "KC"], false, "ID")
  /** `((NM|RC):i:[-+]?[0-9]+)|(ID:Z:[ -~]+)` */
  const CONTAINMENT_FIELDS := FieldSet(["NM", "RC"], false, "ID")

  predicate HexDigit(c: char) { Digit(c) || 'A' <= c <= 'F' }

  predicate Sign(c: char) { c == '+' || c == '-' }

  /** The language of `[-+]?[0-9]+`. */
  predicate IsInteger(x: string)
  {
    |x| > 0 && (if Sign(x[0]) then |x| > 1 && All(x[1..], Digit) else All(x, Digit))
  }

  /** The language of one optional field of the set. */
  predicate IsField(fs: FieldSet, f: string)
  {
    |f| > 5 &&
    ((f[..2] in fs.integerTags && f[2..5] == ":i:" && IsInteger(f[5..]))
     || (fs.hexTag && f[..5] == "SH:H:" && All(f[5..], HexDigit))
     || (f[..5] == fs.textTag + ":Z:" && All(f[5..], PrintableOrSpace)))
  }

  /** Length of the greedy `[-+]?[0-9]+` at the start of `s`, or 0. */
  function IntegerLength(s: string): nat
  {
    if |s| > 0 && Sign(s[0]) then
      var d := Span(s[1..], Digit);
      if d > 0 then 1 + d else 0
    else Span(s, Digit)
  }

  /** Length of one optional field of the set at the start of `s`, or 0. */
  function FieldLength(fs: FieldSet, s: string): (n: nat)
    ensures n <= |s|
  {
    if |s| < 5 then 0
    else if s[..2] in fs.integerTags && s[2..5] == ":i:" then
      var n := IntegerLength(s[5..]);
      if n > 0 then 5 + n else 0
    else if fs.hexTag && s[..5] == "SH:H:" then
      var n := Span(s[5..], HexDigit);
      if n > 0 then 5 + n else 0
    else if s[..5] == fs.textTag + ":Z:" then
      var n := Span(s[5..], PrintableOrSpace);
      if n > 0 then 5 + n else 0
    else 0
  }

  /** Length of the greedy `(\t<field>)*` at the start of `s`. */
  function OptionalFieldsLength(fs: FieldSet, s: string): (n: nat)
    ensures n <= |s|
    decreases |s|
  {
    if |s| > 0 && s[0] == '\t' && FieldLength(fs, s[1..]) > 0 then
      var n := 1 + FieldLength(fs, s[1..]);
      n + OptionalFieldsLength(fs, s[n..])
    else 0
  }

  /** `parse_optional_fields_segment`, `_link` and `_contaiment`: the text of
    * zero or more tab-prefixed fields of the set, as many as follow; it never
    * fails. */
  function ParseOptionalFields(fs: FieldSet, input: string): (r: IResult<string>)
    ensures r.Done? && input == r.value + r.rest
    ensures r.value == [] || r.value[0] == '\t'
    ensures var fields := MatchedFields(fs, input);
      r.value == Prefixed(fields, "\t") && forall i :: 0 <= i < |fields| ==> IsField(fs, fields[i])
    ensures EndsFields(fs, r.rest)
  {
    var n := OptionalFieldsLength(fs, input);
    OptionalFieldsMatched(fs, input);
    OptionalFieldsMaximal(fs, input);
    Done(input[n..], input[..n])
  }

  /** What the greedy `[-+]?[0-9]+` reads is an integer. */
  lemma IntegerLengthSound(s: string)
    requires IntegerLength(s) > 0
    ensures IsInteger(s[..IntegerLength(s)])
  {
    var n := IntegerLength(s);
    if Sign(s[0]) {
      assert s[..n][1..] == s[1..][..n - 1];
    }
  }

  /** What one field reads is a field of the set. */
  lemma FieldLengthSound(fs: FieldSet, s: string)
    requires FieldLength(fs, s) > 0
    ensures IsField(fs, s[..FieldLength(fs, s)])
  {
    var n := FieldLength(fs, s);
    var f := s[..n];
    assert f[..2] == s[..2] && f[2..5] == s[2..5] && f[..5] == s[..5];
    assert f[5..] == s[5..][..n - 5];
    if s[..2] in fs.integerTags && s[2..5] == ":i:" {
      IntegerLengthSound(s[5..]);
    }
  }

  /** The fields the greedy `(\t<field>)*` reads, in order. */
  function MatchedFields(fs: FieldSet, s: string): (fields: seq<string>)
    ensures forall i :: 0 <= i < |fields| ==> IsField(fs, fields[i])
    decreases |s|
  {
    if |s| > 0 && s[0] == '\t' && FieldLength(fs, s[1..]) > 0 then
      var m := FieldLength(fs, s[1..]);
      FieldLengthSound(fs, s[1..]);
      [s[1..][..m]] + MatchedFields(fs, s[1 + m..])
    else []
  }

  /** The text the optional fields span is those fields, each after a tab. */
  lemma {:induction false} OptionalFieldsMatched(fs: FieldSet, s: string)
    ensures s[..OptionalFieldsLength(fs, s)] == Prefixed(MatchedFields(fs, s), "\t")
    decreases |s|
  {
    if |s| > 0 && s[0] == '\t' && FieldLength(fs, s[1..]) > 0 {
      var m := FieldLength(fs, s[1..]);
      var n := 1 + m;
      var t := s[n..];
      var k := OptionalFieldsLength(fs, t);
      var fields := MatchedFields(fs, s);
      assert OptionalFieldsLength(fs, s) == n + k;
      assert fields == [s[1..][..m]] + MatchedFields(fs, t);
      assert fields[1..] == MatchedFields(fs, t);
      OptionalFieldsMatched(fs, t);
      SliceSplit(s, n, n + k);
      assert s[..n] == "\t" + s[1..][..m];
      PrefixedCons(fields, "\t", []);
    }
  }

  /** No further field follows the greedy run. */
  lemma {:induction false} OptionalFieldsMaximal(fs: FieldSet, s: string)
    ensures EndsFields(fs, s[OptionalFieldsLength(fs, s)..])
    decreases |s|
  {
    if |s| > 0 && s[0] == '\t' && FieldLength(fs, s[1..]) > 0 {
      var n := 1 + FieldLength(fs, s[1..]);
      OptionalFieldsMaximal(fs, s[n..]);
      assert s[n..][OptionalFieldsLength(fs, s[n..])..] == s[OptionalFieldsLength(fs, s)..];
    } else {
      assert s[OptionalFieldsLength(fs, s)..] == s;
    }
  }


  /** A tag of an integer field seen with a following tab keeps its length. */
  lemma IntegerLengthOf(x: string, rest: string)
    requires IsInteger(x) && (rest == [] || rest[0] == '\t')
    ensures IntegerLength(x + rest) == |x|
  {
    if Sign(x[0]) {
      assert (x + rest)[1..] == x[1..] + rest;
      SpanOfRun(x[1..], rest, Digit);
    } else {
      SpanOfRun(x, rest, Digit);
    }
  }

  lemma FieldLengthOf(fs: FieldSet, f: string, rest: string)
    requires IsField(fs, f) && (rest == [] || rest[0] == '\t')
    ensures FieldLength(fs, f + rest) == |f|
  {
    var s := f + rest;
    assert s[..2] == f[..2] && s[2..5] == f[2..5] && s[..5] == f[..5];
    assert s[5..] == f[5..] + rest;
    if f[..2] in fs.integerTags && f[2..5] == ":i:" && IsInteger(f[5..]) {
      IntegerLengthOf(f[5..], rest);
    } else if fs.hexTag && f[..5] == "SH:H:" && All(f[5..], HexDigit) {
      SpanOfRun(f[5..], rest, HexDigit);
    } else {
      SpanOfRun(f[5..], rest, PrintableOrSpace);
    }
  }

  /** Every tag of the set is two alphanumeric characters. */
  predicate WellFormedSet(fs: FieldSet)
  {
    (forall t | t in fs.integerTags :: |t| == 2 && All(t, Alphanumeric))
    && |fs.textTag| == 2 && All(fs.textTag, Alphanumeric)
  }

  /** A two-character tag of alphanumeric characters. */
  predicate TagChars(t: string) { |t| == 2 && Alphanumeric(t[0]) && Alphanumeric(t[1]) }

  lemma WellFormedOf(fs: FieldSet)
    requires (forall i :: 0 <= i < |fs.integerTags| ==> TagChars(fs.integerTags[i])) && TagChars(fs.textTag)
    ensures WellFormedSet(fs)
  {
    forall t | t in fs.integerTags ensures |t| == 2 && All(t, Alphanumeric) {
      var i :| 0 <= i < |fs.integerTags| && fs.integerTags[i] == t;
      assert TagChars(t);
    }
  }

  lemma FieldSetsWellFormed()
    ensures WellFormedSet(SEGMENT_FIELDS) && WellFormedSet(LINK_FIELDS) && WellFormedSet(CONTAINMENT_FIELDS)
  {
    WellFormedOf(SEGMENT_FIELDS);
    WellFormedOf(LINK_FIELDS);
    WellFormedOf(CONTAINMENT_FIELDS);
  }

  lemma FieldHasNoTab(fs: FieldSet, f: string)
    requires WellFormedSet(fs) && IsField(fs, f)
    ensures '\t' !in f
  {
    forall i | 0 <= i < |f| ensures f[i] != '\t' {
      var head, value := f[..5], f[5..];
      if i >= 5 {
        assert f[i] == value[i - 5];
        if i > 5 {
          assert value[i - 5] == value[1..][i - 6];
        }
      } else if f[..2] in fs.integerTags && f[2..5] == ":i:" && IsInteger(value) {
        if i < 2 {
          assert f[i] == f[..2][i];
          assert Alphanumeric(f[..2][i]);
        } else {
          assert f[i] == f[2..5][i - 2];
        }
      } else if fs.hexTag && head == "SH:H:" && All(value, HexDigit) {
        assert f[i] == head[i];
      } else {
        assert f[i] == head[i];
        assert head == fs.textTag + ":Z:";
        if i < 2 {
          assert Alphanumeric(fs.textTag[i]);
        }
      }
    }
  }

  /** The tail that ends a run of optional fields: nothing, or anything that
    * does not begin another tab-prefixed field. */
  predicate EndsFields(fs: FieldSet, rest: string)
  {
    rest == [] || rest[0] != '\t' || FieldLength(fs, rest[1..]) == 0
  }

  /** One field after a tab, then the fields after it. */
  lemma OptionalFieldsStep(fs: FieldSet, f: string, tail: string)
    requires IsField(fs, f) && (tail == [] || tail[0] == '\t')
    ensures OptionalFieldsLength(fs, "\t" + (f + tail)) == 1 + |f| + OptionalFieldsLength(fs, tail)
  {
    var s := "\t" + (f + tail);
    assert s[1..] == f + tail;
    FieldLengthOf(fs, f, tail);
    assert s[1 + |f|..] == tail;
  }

  lemma {:induction false} OptionalFieldsLengthOf(fs: FieldSet, fields: seq<string>, rest: string)
    requires forall i :: 0 <= i < |fields| ==> IsField(fs, fields[i])
    requires (rest == [] || rest[0] == '\t') && EndsFields(fs, rest)
    ensures OptionalFieldsLength(fs, Prefixed(fields, "\t") + rest) == |Prefixed(fields, "\t")|
  {
    if fields != [] {
      var tail := Prefixed(fields[1..], "\t") + rest;
      PrefixedCons(fields, "\t", rest);
      if fields[1..] != [] {
        PrefixedCons(fields[1..], "\t", rest);
      }
      OptionalFieldsStep(fs, fields[0], tail);
      OptionalFieldsLengthOf(fs, fields[1..], rest);
    } else {
      assert Prefixed(fields, "\t") + rest == rest;
    }
  }

  /** Tab-prefixed fields of the set are read as a whole, and splitting the
    * captured text at tabs and dropping the empty pieces gives the fields. */
  lemma ParseOptionalFieldsOf(fs: FieldSet, fields: seq<string>, rest: string)
    requires WellFormedSet(fs) && forall i :: 0 <= i < |fields| ==> IsField(fs, fields[i])
    requires (rest == [] || rest[0] == '\t') && EndsFields(fs, rest)
    ensures ParseOptionalFields(fs, Prefixed(fields, "\t") + rest) == Done(rest, Prefixed(fields, "\t"))
    ensures NonEmpty(SplitTerminator(Prefixed(fields, "\t"), '\t')) == fields
  {
    OptionalFieldsLengthOf(fs, fields, rest);
    forall i | 0 <= i < |fields| ensures '\t' !in fields[i] && fields[i] != "" {
      FieldHasNoTab(fs, fields[i]);
    }
    FieldsOfPrefixed(fields);
  }

  /** A tab at the end of a record line ends its optional fields. */
  lemma TabEndsFields(fs: FieldSet)
    ensures EndsFields(fs, "\t")
  {
  }

  // ---------------------------------------------------------------------
  // Record parsers
  // ---------------------------------------------------------------------

  /** `parse_header`. */
  function ParseHeader(input: string): (r: IResult<Header>)
    ensures r.Done?
  {
    var v := ParseHeaderTag(input);
    Done(v.rest, Header(v.value))
  }

  /** `parse_segment`: name, tab, sequence, optional fields. */
  function ParseSegment(input: string): IResult<Segment>
  {
    var name := Tab(ParseName(input));
    if name.Error? then Error else
    var sequence := ParseSequence(name.rest);
    if sequence.Error? then Error else
    var opt := ParseOptionalFields(SEGMENT_FIELDS, sequence.rest);
    Done(opt.rest, Segment(name.value, sequence.value, Fields(opt.value)))
  }

  /** `parse_link`: from, orientation, to, orientation (each followed by a tab), overlap, optional fields. */
  function ParseLink(input: string): IResult<Link>
  {
    var from := Tab(ParseName(input));
    if from.Error? then Error else
    var fromOrient := Tab(ParseOrient(from.rest));
    if fromOrient.Error? then Error else
    var to := Tab(ParseName(fromOrient.rest));
    if to.Error? then Error else
    var toOrient := Tab(ParseOrient(to.rest));
    if toOrient.Error? then Error else
    var overlap := ParseOverlap(toOrient.rest);
    if overlap.Error? then Error else
    var opt := ParseOptionalFields(LINK_FIELDS, overlap.rest);
    Done(opt.rest, Link(from.value, fromOrient.value, to.value, toOrient.value, overlap.value, Fields(opt.value)))
  }

  /** What `parse_containment` reads before it converts the position. */
  datatype ContainmentFields = ContainmentFields(
    container: string, containerOrient: Orientation, contained: string, containedOrient: Orientation,
    digits: string, overlap: string, captured: string)

  function ContainmentHead(input: string): IResult<ContainmentFields>
  {
    var container := Tab(ParseName(input));
    if container.Error? then Error else
    var containerOrient := Tab(ParseOrient(container.rest));
    if containerOrient.Error? then Error else
    var contained := Tab(ParseName(containerOrient.rest));
    if contained.Error? then Error else
    var containedOrient := Tab(ParseOrient(contained.rest));
    if containedOrient.Error? then Error else
    var n := Span(containedOrient.rest, Digit);
    var pos := Tab(Done(containedOrient.rest[n..], containedOrient.rest[..n]));
    if pos.Error? then Error else
    var overlap := ParseOverlap(pos.rest);
    if overlap.Error? then Error else
    var opt := ParseOptionalFields(CONTAINMENT_FIELDS, overlap.rest);
    Done(opt.rest, ContainmentFields(container.value, containerOrient.value, contained.value,
      containedOrient.value, pos.value, overlap.value, opt.value))
  }

  /** `parse_containment` converts the `digit0` position with
    * `parse::<usize>().unwrap()`, which panics on an empty or too large
    * number; callers must not hand it such a line. */
  predicate PositionConverts(input: string)
  {
    var h := ContainmentHead(input);
    h.Done? ==> ParseU64(h.value.digits).Some?
  }

  /** `parse_containment`. */
  function ParseContainment(input: string): IResult<Containment>
    requires PositionConverts(input)
  {
    var h := ContainmentHead(input);
    if h.Error? then Error else
    var c := h.value;
    Done(h.rest, Containment(c.container, c.containerOrient, c.contained, c.containedOrient,
      ParseU64(c.digits).value, c.overlap, Fields(c.captured)))
  }

  /** The overlaps after the first one: `(, <overlap>)*` as nom's
    * `separated_list` reads it; a comma not followed by an overlap is left
    * in the input. */
  function MoreOverlaps(input: string): (r: (string, seq<string>))
    decreases |input|
  {
    if |input| > 0 && input[0] == ',' then
      var next := ParseOverlap(input[1..]);
      if next.Error? then (input, [])
      else
        var more := MoreOverlaps(next.rest);
        (more.0, [next.value] + more.1)
    else (input, [])
  }

  /** `separated_list(tag(","), parse_overlap)`: never fails; no overlap gives the empty list. */
  function OverlapList(input: string): (r: IResult<seq<string>>)
    ensures r.Done?
  {
    var first := ParseOverlap(input);
    if first.Error? then Done(input, [])
    else
      var more := MoreOverlaps(first.rest);
      Done(more.0, [first.value] + more.1)
  }

  /** `parse_path`: name, tab, the comma-separated segment names read as one
    * name and a tab, then the overlaps. */
  function ParsePath(input: string): IResult<Path>
  {
    var name := Tab(ParseName(input));
    if name.Error? then Error else
    var segments := Tab(ParseName(name.rest));
    if segments.Error? then Error else
    var overlaps := OverlapList(segments.rest);
    Done(overlaps.rest, Path(name.value, SplitTerminator(segments.value, ','), overlaps.value))
  }

  /** `parse_comment`: the printable text `[ -~]*`. */
  function ParseComment(input: string): (r: IResult<string>)
    ensures r.Done? && input == r.value + r.rest && All(r.value, PrintableOrSpace)
    ensures r.rest == [] || !PrintableOrSpace(r.rest[0])
  {
    var n := Span(input, PrintableOrSpace);
    Done(input[n..], input[..n])
  }

  // ---------------------------------------------------------------------
  // Lines and files
  // ---------------------------------------------------------------------

  /** The kind letter each parsed line came from. */
  function KindLetter(l: Line): char
  {
    match l
    case HeaderLine(_) => 'H'
    case SegmentLine(_) => 'S'
    case LinkLine(_) => 'L'
    case ContainmentLine(_) => 'C'
    case PathLine(_) => 'P'
    case CommentLine(_) => '#'
  }

  /** The letters of the record kinds. */
  predicate RecordLetter(c: char) { c == 'H' || c == 'S' || c == 'L' || c == 'C' || c == 'P' }

  /** The lines `parse_line` handles without panicking: it unwraps the first
    * character of the line, panics on a first character outside `HSLCP#`,
    * and panics inside `parse_containment` on a position it cannot convert. */
  predicate Parsable(line: string)
  {
    |line| > 0 && (RecordLetter(line[0]) || line[0] == '#')
    && (line[0] == 'C' && |line| > 1 && line[1] == '\t' ==> PositionConverts(line[2..]))
  }

  /** The record after `<letter>\t`, read by the parser of that kind. */
  function ParseRecord(letter: char, body: string): (r: IResult<Line>)
    requires RecordLetter(letter) && (letter == 'C' ==> PositionConverts(body))
  {
    match letter
    case 'H' => var h := ParseHeader(body); Done(h.rest, HeaderLine(h.value))
    case 'S' => var s := ParseSegment(body); if s.Error? then Error else Done(s.rest, SegmentLine(s.value))
    case 'L' => var l := ParseLink(body); if l.Error? then Error else Done(l.rest, LinkLine(l.value))
    case 'C' =>
      var c := ParseContainment(body);
      if c.Error? then Error else Done(c.rest, ContainmentLine(c.value))
    case _ => var p := ParsePath(body); if p.Error? then Error else Done(p.rest, PathLine(p.value))
  }

  /** `parse_line`: dispatches on the first character; record lines need a
    * tab after the letter, comment lines a space after `#`. */
  function ParseLine(line: string): (r: IResult<Line>)
    requires Parsable(line)
    ensures r.Done? && line[0] != '#' ==> |line| > 1 && line[1] == '\t'
    ensures r.Done? && line[0] == '#' ==> |line| > 1 && line[1] == ' '
  {
    if line[0] == '#' then
      if |line| > 1 && line[1] == ' ' then
        var c := ParseComment(line[2..]);
        Done(c.rest, CommentLine(c.value))
      else Error
    else if |line| < 2 || line[1] != '\t' then Error
    else ParseRecord(line[0], line[2..])
  }

  /** Each record parser yields a line of its own kind. */
  lemma RecordKind(letter: char, body: string)
    requires RecordLetter(letter) && (letter == 'C' ==> PositionConverts(body))
    ensures ParseRecord(letter, body).Done? ==> KindLetter(ParseRecord(letter, body).value) == letter
  {
    if letter == 'H' {
    } else if letter == 'S' {
      SegmentKind(letter, body);
    } else if letter == 'L' {
      LinkKind(letter, body);
    } else if letter == 'C' {
      ContainmentKind(letter, body);
    } else {
      PathKind(letter, body);
    }
  }

  lemma SegmentKind(letter: char, body: string)
    requires letter == 'S'
    ensures ParseRecord(letter, body).Done? ==> ParseRecord(letter, body).value.SegmentLine?
  {
    assert letter != 'H';
  }

  lemma LinkKind(letter: char, body: string)
    requires letter == 'L'
    ensures ParseRecord(letter, body).Done? ==> ParseRecord(letter, body).value.LinkLine?
  {
    assert letter != 'H' && letter != 'S';
  }

  lemma ContainmentKind(letter: char, body: string)
    requires letter == 'C' && PositionConverts(body)
    ensures ParseRecord(letter, body).Done? ==> ParseRecord(letter, body).value.ContainmentLine?
  {
    assert letter != 'H' && letter != 'S' && letter != 'L';
  }

  lemma PathKind(letter: char, body: string)
    requires letter == 'P'
    ensures ParseRecord(letter, body).Done? ==> ParseRecord(letter, body).value.PathLine?
  {
    assert letter != 'H' && letter != 'S' && letter != 'L' && letter != 'C';
  }

  /** `parse_line` yields a line of the kind its first character names. */
  lemma ParseLineKind(line: string)
    requires Parsable(line)
    ensures ParseLine(line).Done? ==> KindLetter(ParseLine(line).value) == line[0]
  {
    if line[0] != '#' && |line| >= 2 && line[1] == '\t' {
      RecordKind(line[0], line[2..]);
    }
  }

  /** `parse_gfa`'s loop body: push the record onto the vector of its kind. */
  function AddLine(g: Gfa, l: Line): Gfa
  {
    match l
    case HeaderLine(h) => g.(headers := g.headers + [h])
    case SegmentLine(s) => g.(segments := g.segments + [s])
    case LinkLine(k) => g.(links := g.links + [k])
    case ContainmentLine(c) => g.(containments := g.containments + [c])
    case PathLine(p) => g.(paths := g.paths + [p])
    case CommentLine(c) => g.(comments := g.comments + [c])
  }

  predicate AllParsable(lines: seq<string>) { forall i :: 0 <= i < |lines| ==> Parsable(lines[i]) }

  /** The lines read into `acc`, in file order; `None` as soon as a line fails to parse. */
  function ParseFrom(acc: Gfa, lines: seq<string>): Option<Gfa>
    requires AllParsable(lines)
    decreases |lines|
  {
    if lines == [] then Some(acc)
    else
      var p := ParseLine(lines[0]);
      if p.Error? then None else ParseFrom(AddLine(acc, p.value), lines[1..])
  }

  /** `parse_gfa` over the lines of a file (opening and reading the file are not modelled). */
  method ParseGfa(lines: seq<string>) returns (r: Option<Gfa>)
    requires AllParsable(lines)
    ensures r == ParseFrom(NewGfa(), lines)
  {
    var gfa := NewGfa();
    var i := 0;
    while i < |lines|
      invariant 0 <= i <= |lines|
      invariant ParseFrom(gfa, lines[i..]) == ParseFrom(NewGfa(), lines)
    {
      assert lines[i..][1..] == lines[i + 1..];
      var p := ParseLine(lines[i]);
      if p.Error? {
        return None;
      }
      gfa := AddLine(gfa, p.value);
      i := i + 1;
    }
    assert lines[i..] == [];
    r := Some(gfa);
  }
}
