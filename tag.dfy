/** SAM-style optional fields of GFA 2.0 lines, `TAG:TYPE:VALUE`. */
module Tag {
  import opened Text

  /** The SAM value types the parser recognises (`A i f Z J H B`). */
  predicate TypeByte(c: char)
  {
    c == 'A' || c == 'i' || c == 'f' || c == 'Z' || c == 'J' || c == 'H' || c == 'B'
  }

  /** The value of a field, tagged with its type; every variant holds the text
    * that was matched, not a decoded value. */
  datatype OptFieldVal =
    | Z(text: string)
    | I(text: string)
    | F(text: string)
    | A(text: string)
    | J(text: string)
    | H(text: string)
    | B(text: string)

  datatype OptField = OptField(tag: string, value: OptFieldVal)

  /** The type byte a value variant stands for. */
  function TypeOf(v: OptFieldVal): char
  {
    match v
    case Z(_) => 'Z'
    case I(_) => 'i'
    case F(_) => 'f'
    case A(_) => 'A'
    case J(_) => 'J'
    case H(_) => 'H'
    case B(_) => 'B'
  }

  /** The variant chosen by a type byte. */
  function ValueOf(typ: char, text: string): (v: OptFieldVal)
    requires TypeByte(typ)
    ensures TypeOf(v) == typ && v.text == text
  {
    match typ
    case 'A' => A(text)
    case 'i' => I(text)
    case 'f' => F(text)
    case 'Z' => Z(text)
    case 'J' => J(text)
    case 'H' => H(text)
    case _ => B(text)
  }

  /** `OptField::tag`: panics unless given exactly two ASCII alphanumeric bytes. */
  function MakeTag(t: string): (r: string)
    requires |t| == 2 && Alphanumeric(t[0]) && Alphanumeric(t[1])
    ensures r == t && All(r, Alphanumeric)
  {
    [t[0], t[1]]
  }

  /** `OptField::new`. */
  function NewOptField(t: string, value: OptFieldVal): (f: OptField)
    requires |t| == 2 && Alphanumeric(t[0]) && Alphanumeric(t[1])
    ensures f.tag == t && f.value == value
  {
    OptField(MakeTag(t), value)
  }

  /** The head `[A-Za-z0-9][A-Za-z0-9]:[ABHJZif]:` of a field. */
  predicate FieldHead(s: string)
  {
    |s| >= 5 && Alphanumeric(s[0]) && Alphanumeric(s[1]) && s[2] == ':' && TypeByte(s[3]) && s[4] == ':'
  }

  /** Length of the match of `([A-Za-z0-9][A-Za-z0-9]:[ABHJZif]:[ -~]*)*` found
    * in `s`. The pattern matches the empty string, so the leftmost match is at
    * the start; one repetition runs to the first byte outside `[ -~]`, where no
    * second one can begin. */
  function MatchLength(s: string): (n: nat)
    ensures n <= |s| && (n == 0 || 5 <= n)
    ensures n > 0 <==> FieldHead(s)
    ensures n > 0 ==> All(s[5..n], PrintableOrSpace) && (n == |s| || !PrintableOrSpace(s[n]))
  {
    if FieldHead(s) then
      var k := Span(s[5..], PrintableOrSpace);
      assert s[5..][..k] == s[5..5 + k];
      5 + k
    else 0
  }

  /** The inputs on which `OptField::parse` reaches `OptField::new` with a tag
    * that is not alphanumeric, and panics. */
  predicate ParsePanics(input: string)
  {
    |input| >= 4 && TypeByte(input[3]) && !(Alphanumeric(input[0]) && Alphanumeric(input[1]))
  }

  /** `OptField::parse`. */
  function ParseOptField(input: string): (r: Option<OptField>)
    requires !ParsePanics(input)
    ensures r.None? <==> |input| < 4 || !TypeByte(input[3])
    ensures r.Some? ==> r.value.tag == input[..2] && TypeOf(r.value.value) == input[3]
    ensures r.Some? ==> r.value.value.text == input[..MatchLength(input)]
  {
    if |input| < 2 then None
    else if |input| < 4 then None
    else if !TypeByte(input[3]) then None
    else Some(NewOptField(input[..2], ValueOf(input[3], input[..MatchLength(input)])))
  }

  /** `Display for OptField`: the stored text, whatever the type. */
  function Display(f: OptField): string
  {
    f.value.text
  }

  /** A well-formed field: its head, then a value of printable characters and spaces. */
  predicate IsFieldText(s: string)
  {
    FieldHead(s) && All(s[5..], PrintableOrSpace)
  }

  /** A field as `parse` builds it from well-formed text: the text is stored
    * whole, its first two bytes are the tag and its fourth byte the type. */
  predicate WellFormed(f: OptField)
  {
    IsFieldText(f.value.text) && f.tag == f.value.text[..2] && TypeOf(f.value) == f.value.text[3]
  }

  /** Parsing well-formed text, followed by anything that cannot continue the
    * value, keeps exactly that text. */
  lemma ParseFieldText(s: string, rest: string)
    requires IsFieldText(s) && (rest == [] || !PrintableOrSpace(rest[0]))
    ensures !ParsePanics(s + rest)
    ensures ParseOptField(s + rest).Some? && WellFormed(ParseOptField(s + rest).value)
    ensures Display(ParseOptField(s + rest).value) == s
  {
    var input := s + rest;
    assert input[..5] == s[..5];
    assert input[5..] == s[5..] + rest;
    SpanOfRun(s[5..], rest, PrintableOrSpace);
    assert input[..|s|] == s;
  }

  /** display ∘ parse is the identity on well-formed text. */
  lemma DisplayParse(s: string)
    requires IsFieldText(s)
    ensures !ParsePanics(s) && ParseOptField(s).Some? && Display(ParseOptField(s).value) == s
  {
    ParseFieldText(s, "");
    assert s + "" == s;
  }

  /** parse ∘ display is the identity on well-formed fields. */
  lemma ParseDisplay(f: OptField)
    requires WellFormed(f)
    ensures !ParsePanics(Display(f)) && ParseOptField(Display(f)) == Some(f)
  {
    DisplayParse(f.value.text);
    var g := ParseOptField(f.value.text).value;
    assert g.value.text == f.value.text;
    TypeDetermines(g.value, f.value);
  }

  /** A value is determined by its type and its text. */
  lemma TypeDetermines(v: OptFieldVal, w: OptFieldVal)
    requires TypeOf(v) == TypeOf(w) && v.text == w.text
    ensures v == w
  {
  }

  /** A field with a known type byte but wrong separators is still accepted:
    * the regex then matches the empty string, so the field keeps its tag and
    * gets an empty value. */
  lemma MalformedFieldIsEmpty(input: string)
    requires |input| >= 4 && TypeByte(input[3]) && Alphanumeric(input[0]) && Alphanumeric(input[1])
    requires input[2] != ':' || |input| < 5 || input[4] != ':'
    ensures ParseOptField(input) == Some(OptField(input[..2], ValueOf(input[3], "")))
  {
    assert !FieldHead(input);
  }

  // ---------------------------------------------------------------------
  // Collections of fields
  // ---------------------------------------------------------------------

  /** Position of the first field with the given tag (`iter().position`), or `|fields|`. */
  function FirstWithTag(fields: seq<OptField>, t: string): (k: nat)
    ensures k <= |fields|
    ensures forall j :: 0 <= j < k ==> fields[j].tag != t
    ensures k < |fields| ==> fields[k].tag == t
  {
    if fields == [] then 0
    else if fields[0].tag == t then 0
    else 1 + FirstWithTag(fields[1..], t)
  }

  /** `get_field` on `Vec<OptField>`: the first field whose tag equals the query. */
  function GetField(fields: seq<OptField>, t: string): (r: Option<OptField>)
    ensures r.None? <==> forall j :: 0 <= j < |fields| ==> fields[j].tag != t
    ensures r.Some? ==> r.value.tag == t
    ensures r.Some? ==> exists k :: (0 <= k < |fields| && fields[k] == r.value &&
                                     forall j :: 0 <= j < k ==> fields[j].tag != t)
  {
    var k := FirstWithTag(fields, t);
    if k < |fields| then Some(fields[k]) else None
  }

  /** Every item of a collection can be handed to `OptField::parse` without a panic. */
  predicate NoPanics(items: seq<string>)
  {
    forall i :: 0 <= i < |items| ==> !ParsePanics(items[i])
  }

  lemma NoPanicsAppend(a: seq<string>, b: seq<string>)
    requires NoPanics(a) && NoPanics(b)
    ensures NoPanics(a + b)
  {
    forall i | 0 <= i < |a + b|
      ensures !ParsePanics((a + b)[i])
    {
      if i < |a| { assert (a + b)[i] == a[i]; } else { assert (a + b)[i] == b[i - |a|]; }
    }
  }

  /** `parse` on `Vec<OptField>`: `filter_map(OptField::parse)`. */
  function ParseFields(items: seq<string>): (r: seq<OptField>)
    requires NoPanics(items)
    ensures |r| <= |items|
  {
    if items == [] then []
    else
      var p := ParseOptField(items[0]);
      if p.Some? then [p.value] + ParseFields(items[1..]) else ParseFields(items[1..])
  }

  /** Every kept field is what `OptField::parse` made of one of the items. */
  lemma {:induction false} ParseFieldsSound(items: seq<string>, f: OptField)
    requires NoPanics(items) && f in ParseFields(items)
    ensures exists i :: 0 <= i < |items| && !ParsePanics(items[i]) && ParseOptField(items[i]) == Some(f)
    decreases |items|
  {
    var p := ParseOptField(items[0]);
    if p == Some(f) {
      assert ParseOptField(items[0]) == Some(f);
    } else {
      assert f in ParseFields(items[1..]);
      ParseFieldsSound(items[1..], f);
      var i :| 0 <= i < |items[1..]| && !ParsePanics(items[1..][i]) && ParseOptField(items[1..][i]) == Some(f);
      assert items[1..][i] == items[i + 1];
    }
  }

  /** Every item that parses contributes its field. */
  lemma {:induction false} ParseFieldsComplete(items: seq<string>, i: nat)
    requires NoPanics(items) && i < |items| && ParseOptField(items[i]).Some?
    ensures ParseOptField(items[i]).value in ParseFields(items)
    decreases i
  {
    if i > 0 {
      assert items[1..][i - 1] == items[i];
      ParseFieldsComplete(items[1..], i - 1);
    }
  }

  /** One item is kept exactly when it parses. */
  lemma ParseFieldsOne(x: string)
    requires !ParsePanics(x)
    ensures ParseFields([x]) == if ParseOptField(x).Some? then [ParseOptField(x).value] else []
  {
    assert [x][1..] == [];
  }

  /** The fields of two runs of items, one after the other: the order of the
    * input is kept. */
  lemma {:induction false} ParseFieldsAppend(a: seq<string>, b: seq<string>)
    requires NoPanics(a) && NoPanics(b)
    ensures NoPanics(a + b) && ParseFields(a + b) == ParseFields(a) + ParseFields(b)
    decreases |a|
  {
    NoPanicsAppend(a, b);
    if a == [] {
      assert a + b == b;
    } else {
      assert (a + b)[1..] == a[1..] + b;
      assert (a + b)[0] == a[0];
      ParseFieldsAppend(a[1..], b);
    }
  }

  // ---------------------------------------------------------------------
  // The `()` implementation, which stores nothing
  // ---------------------------------------------------------------------

  function UnitParse(items: seq<string>): ()
  {
    ()
  }

  function UnitGetField(u: (), t: string): Option<OptField>
  {
    None
  }

  function UnitFields(u: ()): seq<OptField>
  {
    []
  }

  /** Whatever is parsed into `()`, no field can be found or listed. */
  lemma UnitStoresNothing(items: seq<string>, t: string)
    ensures UnitGetField(UnitParse(items), t).None? && UnitFields(UnitParse(items)) == []
  {
  }
}
