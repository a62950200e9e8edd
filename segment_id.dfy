/** The types GFA 2.0 segment ids can be parsed into (`usize` and `BString`),
  * their three field parsers, and the `parse_next*` helpers that take one
  * field from an iterator over the fields of a line. */
module SegmentId {
  import opened Text

  /** The errors `parse_next*` report. */
  datatype ParseFieldError = MissingFields | UintIdError | Utf8Error

  datatype Result<T> = Ok(value: T) | Err(error: ParseFieldError)

  /** Which implementation of the segment-id type is in use. */
  datatype IdKind = UsizeId | BStringId

  /** A parsed id of either implementation. */
  datatype Id = UsizeValue(n: nat) | BStringValue(s: string)

  /** Which of the three parsers a `parse_next*` helper applies. */
  datatype Parser = IdParser | OptIdParser | RefParser

  /** `Self::ERROR`. */
  function KindError(kind: IdKind): (e: ParseFieldError)
    ensures e != MissingFields
    ensures e == UintIdError <==> kind == UsizeId
  {
    match kind
    case UsizeId => UintIdError
    case BStringId => Utf8Error
  }

  // ---------------------------------------------------------------------
  // usize: one decimal parse for all three parsers
  // ---------------------------------------------------------------------

  /** `str::parse::<usize>` on a 64-bit target: an optional `+`, then one or
    * more digits whose value fits in 64 bits. */
  function ParseUsize(s: string): (r: Option<nat>)
    ensures r.Some? <==> (var d := if |s| > 0 && s[0] == '+' then s[1..] else s;
                         |d| > 0 && All(d, Digit) && DigitsValue(d) < U64_LIMIT)
    ensures r.Some? ==> r.value < U64_LIMIT
  {
    ParseU64(s)
  }

  /** A rendered number below 2^64 reads back as itself. */
  lemma ParseUsizeRendered(n: nat)
    requires n < U64_LIMIT
    ensures ParseUsize(NatToString(n)) == Some(n)
  {
    NatToStringParses(n);
  }

  /** A field holding anything but the optional sign and digits is refused. */
  lemma ParseUsizeRejects(s: string, i: nat)
    requires i < |s| && !Digit(s[i]) && !(i == 0 && s[i] == '+')
    ensures ParseUsize(s).None?
  {
    var d := if |s| > 0 && s[0] == '+' then s[1..] else s;
    if |s| > 0 && s[0] == '+' {
      assert d[i - 1] == s[i];
    } else {
      assert d[i] == s[i];
    }
  }

  // ---------------------------------------------------------------------
  // BString: `[!-~]+` and `[!-~]+|\*`
  // ---------------------------------------------------------------------

  /** Index of the first printable character of `s` at or after `from`, or `|s|`. */
  function FirstPrintable(s: string, from: nat): (i: nat)
    requires from <= |s|
    ensures from <= i <= |s|
    ensures forall j :: from <= j < i ==> !Printable(s[j])
    ensures i < |s| ==> Printable(s[i])
    decreases |s| - from
  {
    if from == |s| || Printable(s[from]) then from else FirstPrintable(s, from + 1)
  }

  /** `Regex::find` with `[!-~]+`: the leftmost run of printable characters,
    * taken as long as it goes. */
  function FindId(s: string): (r: Option<string>)
    ensures r.None? <==> forall j :: 0 <= j < |s| ==> !Printable(s[j])
    ensures r.Some? ==> var i := FirstPrintable(s, 0);
      i + |r.value| <= |s| && r.value == s[i..i + |r.value|] && |r.value| > 0 && All(r.value, Printable) &&
      (i + |r.value| == |s| || !Printable(s[i + |r.value|]))
  {
    var i := FirstPrintable(s, 0);
    if i == |s| then None
    else
      var n := Span(s[i..], Printable);
      assert s[i..][..n] == s[i..i + n];
      Some(s[i..i + n])
  }

  /** Non-printable padding, a printable word, then anything that does not
    * continue it: the word is found. */
  lemma FindIdOf(pad: string, w: string, rest: string)
    requires All(pad, p => !Printable(p)) && |w| > 0 && All(w, Printable)
    requires rest == [] || !Printable(rest[0])
    ensures FindId(pad + w + rest) == Some(w)
  {
    var s := pad + w + rest;
    assert forall j :: 0 <= j < |pad| ==> s[j] == pad[j];
    assert s[|pad|] == w[0];
    assert FirstPrintable(s, 0) == |pad|;
    assert s[|pad|..] == w + rest;
    SpanOfRun(w, rest, Printable);
    assert s[|pad|..|pad| + |w|] == w;
  }

  /** `Regex::find` with `[!-~]+|\*`: at the leftmost position where either
    * alternative matches, the first alternative if it does, else `*`. */
  function FindOptId(s: string): (r: Option<string>)
    ensures r.Some? ==> |r.value| > 0
  {
    var i := FirstStart(s, 0);
    if i == |s| then None
    else if Printable(s[i]) then
      Some(s[i..i + Span(s[i..], Printable)])
    else
      Some("*")
  }

  /** Index of the first position at or after `from` where `[!-~]+|\*` can start. */
  function FirstStart(s: string, from: nat): (i: nat)
    requires from <= |s|
    ensures from <= i <= |s|
    ensures i < |s| ==> Printable(s[i]) || s[i] == '*'
    decreases |s| - from
  {
    if from == |s| || Printable(s[from]) || s[from] == '*' then from else FirstStart(s, from + 1)
  }

  /** `*` is itself printable, so the alternative never changes the match:
    * `parse_opt_id` and `parse_id` agree on every input. */
  lemma {:induction false} FindOptIdIsFindId(s: string)
    ensures FindOptId(s) == FindId(s)
  {
    SameStart(s, 0);
  }

  lemma {:induction false} SameStart(s: string, from: nat)
    requires from <= |s|
    ensures FirstStart(s, from) == FirstPrintable(s, from)
    decreases |s| - from
  {
    if from < |s| && !Printable(s[from]) && s[from] != '*' {
      SameStart(s, from + 1);
    }
  }

  // ---------------------------------------------------------------------
  // BString: `[!-~]+[+-]`
  // ---------------------------------------------------------------------

  predicate Sign(c: char) { c == '+' || c == '-' }

  /** `s[i..e]` matches `[!-~]+[+-]`. */
  predicate RefMatch(s: string, i: nat, e: nat)
  {
    i + 2 <= e <= |s| && All(s[i..e - 1], Printable) && Sign(s[e - 1])
  }

  /** The last index in `[lo, hi)` holding a sign, if any. */
  function LastSign(s: string, lo: nat, hi: nat): (r: Option<nat>)
    requires lo <= hi <= |s|
    ensures r.None? ==> forall p :: lo <= p < hi ==> !Sign(s[p])
    ensures r.Some? ==> lo <= r.value < hi && Sign(s[r.value]) &&
                        forall p :: r.value < p < hi ==> !Sign(s[p])
    decreases hi
  {
    if hi == lo then None
    else if Sign(s[hi - 1]) then Some(hi - 1)
    else LastSign(s, lo, hi - 1)
  }

  /** Inside the maximal printable run starting at `i`, of length `n`, the
    * matches starting at `i` are the signs after its first character. */
  lemma RefMatchInRun(s: string, i: nat, n: nat, e: nat)
    requires i + n <= |s| && All(s[i..i + n], Printable) && (i + n == |s| || !Printable(s[i + n]))
    ensures RefMatch(s, i, e) <==> i + 2 <= e <= i + n && Sign(s[e - 1])
  {
    if i + 2 <= e <= i + n && Sign(s[e - 1]) {
      AllPrefix(s[i..i + n], e - 1 - i, Printable);
      assert s[i..i + n][..e - 1 - i] == s[i..e - 1];
    }
  }

  /** The end of the longest match of `[!-~]+[+-]` starting at `i`, if any. */
  function RefEndAt(s: string, i: nat): (r: Option<nat>)
    requires i <= |s|
    ensures r.None? ==> forall e :: !RefMatch(s, i, e)
    ensures r.Some? ==> RefMatch(s, i, r.value) && forall e :: r.value < e ==> !RefMatch(s, i, e)
  {
    var n := Span(s[i..], Printable);
    assert s[i..][..n] == s[i..i + n];
    var p := if n < 1 then None else LastSign(s, i + 1, i + n);
    assert forall e: nat :: RefMatch(s, i, e) <==> i + 2 <= e <= i + n && Sign(s[e - 1]) by {
      forall e: nat { RefMatchInRun(s, i, n, e); }
    }
    if p.Some? then Some(p.value + 1) else None
  }

  /** `Regex::find` with `[!-~]+[+-]` from position `from` on: the leftmost
    * start with a match, and the longest match there (the greedy run backs
    * off to its last sign). */
  function FindRefFrom(s: string, from: nat): (r: Option<(nat, nat)>)
    requires from <= |s|
    ensures r.None? ==> forall i, e :: from <= i <= |s| ==> !RefMatch(s, i, e)
    ensures r.Some? ==> var (i, e) := r.value;
      from <= i && RefMatch(s, i, e) &&
      (forall i', e' :: from <= i' < i ==> !RefMatch(s, i', e')) &&
      (forall e' :: e < e' ==> !RefMatch(s, i, e'))
    decreases |s| - from
  {
    var end := RefEndAt(s, from);
    if end.Some? then Some((from, end.value))
    else if from == |s| then None
    else FindRefFrom(s, from + 1)
  }

  /** `parse_ref` on `BString`: the text of that match. */
  function FindRef(s: string): (r: Option<string>)
    ensures r.Some? ==> |r.value| >= 2 && All(r.value[..|r.value| - 1], Printable) && Sign(r.value[|r.value| - 1])
    ensures r.None? <==> forall i, e :: 0 <= i <= |s| ==> !RefMatch(s, i, e)
  {
    var m := FindRefFrom(s, 0);
    if m.None? then None
    else
      var (i, e) := m.value;
      assert s[i..e][..e - i - 1] == s[i..e - 1];
      Some(s[i..e])
  }

  /** A reference alone in its field, as a GFA 2.0 line carries it, is found whole. */
  lemma FindRefOfField(w: string)
    requires |w| >= 2 && All(w, Printable) && Sign(w[|w| - 1])
    ensures FindRef(w) == Some(w)
  {
    assert RefMatch(w, 0, |w|) by {
      assert w[0..|w| - 1] == w[..|w| - 1];
    }
    var m := FindRefFrom(w, 0);
    assert m.Some?;
    assert m.value.0 == 0;
    assert m.value.1 == |w|;
    assert w[0..|w|] == w;
  }

  // ---------------------------------------------------------------------
  // The three parsers of each implementation
  // ---------------------------------------------------------------------

  /** `parse_id`, `parse_opt_id` or `parse_ref` of the given implementation. */
  function ParseField(kind: IdKind, parser: Parser, s: string): (r: Option<Id>)
    ensures kind == UsizeId && r.Some? ==> r.value.UsizeValue?
    ensures kind == BStringId && r.Some? ==> r.value.BStringValue?
  {
    match kind
    case UsizeId =>
      var n := ParseUsize(s);
      if n.Some? then Some(UsizeValue(n.value)) else None
    case BStringId =>
      var t := match parser
        case IdParser => FindId(s)
        case OptIdParser => FindOptId(s)
        case RefParser => FindRef(s);
      if t.Some? then Some(BStringValue(t.value)) else None
  }

  /** For `usize` the three parsers are one and the same decimal parse. */
  lemma UsizeParsersAgree(s: string)
    ensures ParseField(UsizeId, IdParser, s) == ParseField(UsizeId, OptIdParser, s) == ParseField(UsizeId, RefParser, s)
    ensures ParseField(UsizeId, IdParser, s).Some? <==> ParseUsize(s).Some?
  {
  }

  /** What `parse_next*` returns for the fields still to come: `MissingFields`
    * when there are none, else the first one parsed, a failure becoming
    * `Self::ERROR`. */
  function NextResult(kind: IdKind, parser: Parser, fields: seq<string>): (r: Result<Id>)
    ensures r == Err(MissingFields) <==> fields == []
    ensures r.Err? && fields != [] ==> r.error == KindError(kind) && ParseField(kind, parser, fields[0]).None?
    ensures r.Ok? ==> fields != [] && ParseField(kind, parser, fields[0]) == Some(r.value)
  {
    if fields == [] then Err(MissingFields)
    else
      var v := ParseField(kind, parser, fields[0]);
      if v.Some? then Ok(v.value) else Err(KindError(kind))
  }

  /** The fields of a line still to be read, as a Rust iterator hands them out. */
  class FieldIter {
    var remaining: seq<string>

    constructor (fields: seq<string>)
      ensures remaining == fields
    {
      remaining := fields;
    }

    /** Takes the next field, if any, as `Iterator::next` does. */
    method Next() returns (r: Option<string>)
      modifies this
      ensures old(remaining) == [] ==> r.None? && remaining == []
      ensures old(remaining) != [] ==> r == Some(old(remaining)[0]) && remaining == old(remaining)[1..]
    {
      if remaining == [] {
        r := None;
      } else {
        r := Some(remaining[0]);
        remaining := remaining[1..];
      }
    }

    /** The body shared by `parse_next`, `parse_next_opt` and `parse_next_ref`. */
    method ParseWith(kind: IdKind, parser: Parser) returns (r: Result<Id>)
      modifies this
      ensures r == NextResult(kind, parser, old(remaining))
      ensures remaining == if old(remaining) == [] then [] else old(remaining)[1..]
    {
      var next := Next();
      if next.None? {
        return Err(MissingFields);
      }
      var v := ParseField(kind, parser, next.value);
      if v.None? {
        return Err(KindError(kind));
      }
      r := Ok(v.value);
    }

    /** `parse_next`. */
    method ParseNext(kind: IdKind) returns (r: Result<Id>)
      modifies this
      ensures r == NextResult(kind, IdParser, old(remaining))
      ensures remaining == if old(remaining) == [] then [] else old(remaining)[1..]
    {
      r := ParseWith(kind, IdParser);
    }

    /** `parse_next_opt`. */
    method ParseNextOpt(kind: IdKind) returns (r: Result<Id>)
      modifies this
      ensures r == NextResult(kind, OptIdParser, old(remaining))
      ensures remaining == if old(remaining) == [] then [] else old(remaining)[1..]
    {
      r := ParseWith(kind, OptIdParser);
    }

    /** `parse_next_ref`. */
    method ParseNextRef(kind: IdKind) returns (r: Result<Id>)
      modifies this
      ensures r == NextResult(kind, RefParser, old(remaining))
      ensures remaining == if old(remaining) == [] then [] else old(remaining)[1..]
    {
      r := ParseWith(kind, RefParser);
    }
  }

  /** Each call consumes exactly one field: after `k` calls on `k` or more
    * fields, the first `k` are gone and the rest are untouched. */
  method ReadFields(it: FieldIter, kinds: seq<IdKind>) returns (rs: seq<Result<Id>>)
    requires |kinds| <= |it.remaining|
    modifies it
    ensures |rs| == |kinds|
    ensures it.remaining == old(it.remaining)[|kinds|..]
    ensures forall k :: 0 <= k < |kinds| ==> rs[k] == NextResult(kinds[k], IdParser, old(it.remaining)[k..])
  {
    rs := [];
    var k := 0;
    while k < |kinds|
      invariant 0 <= k <= |kinds|
      invariant |rs| == k
      invariant it.remaining == old(it.remaining)[k..]
      invariant forall j :: 0 <= j < k ==> rs[j] == NextResult(kinds[j], IdParser, old(it.remaining)[j..])
    {
      var r := it.ParseNext(kinds[k]);
      assert old(it.remaining)[k..][1..] == old(it.remaining)[k + 1..];
      rs := rs + [r];
      k := k + 1;
    }
  }
}
