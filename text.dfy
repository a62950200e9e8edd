/** Optional values, nom's parser result, character classes and the string
  * helpers of the Rust standard library that the GFA code is built from:
  * decimal rendering and parsing of unsigned integers, `split`,
  * `split_terminator`, `retain(|s| !s.is_empty())` and the `fold`s that put a
  * separator after (or before) every item. Bytes and characters coincide:
  * every string of the model is a sequence of single-byte characters. */
module Text {

  datatype Option<T> = None | Some(value: T)

  /** nom's `IResult`: the unconsumed input and the value, or a recoverable error. */
  datatype IResult<T> = Done(rest: string, value: T) | Error

  /** `[!-~]`: a printable character other than space. */
  predicate Printable(c: char) { '!' <= c <= '~' }

  /** `[ -~]`: a printable character or space. */
  predicate PrintableOrSpace(c: char) { ' ' <= c <= '~' }

  predicate Digit(c: char) { '0' <= c <= '9' }

  predicate Letter(c: char) { 'A' <= c <= 'Z' || 'a' <= c <= 'z' }

  predicate Alphanumeric(c: char) { Letter(c) || Digit(c) }

  predicate All(s: string, p: char -> bool) { forall i :: 0 <= i < |s| ==> p(s[i]) }

  /** nom's `terminated(p, tag("\t"))`. */
  function Tab<T>(r: IResult<T>): (t: IResult<T>)
    ensures t.Done? <==> r.Done? && |r.rest| > 0 && r.rest[0] == '\t'
    ensures t.Done? ==> t.value == r.value && r.rest == "\t" + t.rest
  {
    if r.Done? && |r.rest| > 0 && r.rest[0] == '\t' then Done(r.rest[1..], r.value) else Error
  }

  /** `terminated(p, tag("\t"))` after a value followed by a tab. */
  lemma TabAfter<V>(v: V, rest: string)
    ensures Tab(Done("\t" + rest, v)) == Done(rest, v)
  {
    assert ("\t" + rest)[1..] == rest;
  }

  /** The tags or optional fields captured as one tab-separated run, split at
    * tabs with the empty pieces dropped (`split_terminator("\t")` then
    * `retain(|tag| !tag.is_empty())`). */
  function Fields(captured: string): seq<string>
  {
    NonEmpty(SplitTerminator(captured, '\t'))
  }

  // ---------------------------------------------------------------------
  // Greedy character-class runs
  // ---------------------------------------------------------------------

  /** Length of the longest prefix of `s` whose characters all satisfy `p`:
    * what a greedy `[class]*` consumes. */
  function Span(s: string, p: char -> bool): (n: nat)
    ensures n <= |s| && All(s[..n], p)
    ensures n < |s| ==> !p(s[n])
  {
    if s == [] || !p(s[0]) then 0 else 1 + Span(s[1..], p)
  }

  /** A run of `p`-characters followed by a character outside the class (or by
    * nothing) is consumed exactly. */
  lemma {:induction false} SpanOfRun(w: string, rest: string, p: char -> bool)
    requires All(w, p)
    requires rest == [] || !p(rest[0])
    ensures Span(w + rest, p) == |w|
  {
    if w == [] {
      assert w + rest == rest;
    } else {
      assert (w + rest)[0] == w[0];
      assert (w + rest)[1..] == w[1..] + rest;
      SpanOfRun(w[1..], rest, p);
    }
  }

  // ---------------------------------------------------------------------
  // Unsigned decimal numbers
  // ---------------------------------------------------------------------

  /** 2^64: `u64` and `usize` (on the 64-bit targets the code is built for) lie below it. */
  const U64_LIMIT: nat := 0x1_0000_0000_0000_0000

  function DigitChar(d: nat): (c: char)
    requires d < 10
    ensures Digit(c) && c as int - '0' as int == d
  {
    ('0' as int + d) as char
  }

  /** The value of a string of decimal digits (most significant first). */
  function DigitsValue(s: string): nat
    requires All(s, Digit)
  {
    if s == [] then 0 else DigitsValue(s[..|s| - 1]) * 10 + (s[|s| - 1] as int - '0' as int)
  }

  /** `Display` of an unsigned integer: decimal, no sign, no leading zeros. */
  function NatToString(n: nat): (s: string)
    ensures |s| > 0 && All(s, Digit)
    ensures |s| > 1 ==> s[0] != '0'
  {
    if n < 10 then [DigitChar(n)] else NatToString(n / 10) + [DigitChar(n % 10)]
  }

  lemma {:induction false} NatToStringValue(n: nat)
    ensures DigitsValue(NatToString(n)) == n
  {
    if n >= 10 {
      var s := NatToString(n);
      assert s[..|s| - 1] == NatToString(n / 10);
      NatToStringValue(n / 10);
    }
  }

  /** `str::parse::<u64>()` (also `usize`): an optional `+`, then one or more
    * decimal digits whose value is below 2^64; anything else is an error. */
  function ParseU64(s: string): (r: Option<nat>)
    ensures r.Some? ==> r.value < U64_LIMIT
    ensures r.Some? ==> |s| > 0 && (Digit(s[0]) || s[0] == '+')
  {
    var digits := if |s| > 0 && s[0] == '+' then s[1..] else s;
    if |digits| > 0 && All(digits, Digit) && DigitsValue(digits) < U64_LIMIT then
      Some(DigitsValue(digits))
    else
      None
  }

  /** Rendering an integer and parsing it back gives the integer. */
  lemma NatToStringParses(n: nat)
    requires n < U64_LIMIT
    ensures ParseU64(NatToString(n)) == Some(n)
  {
    NatToStringValue(n);
  }

  // ---------------------------------------------------------------------
  // Splitting and joining
  // ---------------------------------------------------------------------

  /** `str::split(d)`: the pieces between occurrences of `d`, always at least one. */
  function Split(s: string, d: char): (r: seq<string>)
    ensures |r| > 0
    ensures forall i :: 0 <= i < |r| ==> d !in r[i]
  {
    if s == [] then [""]
    else
      var t := Split(s[1..], d);
      if s[0] == d then [""] + t else [[s[0]] + t[0]] + t[1..]
  }

  /** `str::split_terminator(d)`: `split`, without the last piece when it is empty. */
  function SplitTerminator(s: string, d: char): (r: seq<string>)
    ensures forall i :: 0 <= i < |r| ==> d !in r[i]
  {
    var p := Split(s, d);
    if p[|p| - 1] == "" then p[..|p| - 1] else p
  }

  /** `iter().fold(String::new(), |acc, x| acc + x + sep)`: every item followed by `sep`. */
  function Terminated(xs: seq<string>, sep: string): string
  {
    if xs == [] then "" else xs[0] + sep + Terminated(xs[1..], sep)
  }

  /** Every item preceded by `sep` (a `for` loop writing `sep` then the item). */
  function Prefixed(xs: seq<string>, sep: string): string
  {
    if xs == [] then "" else sep + xs[0] + Prefixed(xs[1..], sep)
  }

  /** The items with `sep` between consecutive ones. */
  function Joined(xs: seq<string>, sep: string): string
  {
    if xs == [] then "" else xs[0] + Prefixed(xs[1..], sep)
  }

  /** `retain(|s| !s.is_empty())`: the non-empty items, in order. */
  function NonEmpty(xs: seq<string>): (r: seq<string>)
    ensures |r| <= |xs|
    ensures forall i :: 0 <= i < |r| ==> r[i] != "" && r[i] in xs
  {
    if xs == [] then [] else (if xs[0] == "" then [] else [xs[0]]) + NonEmpty(xs[1..])
  }

  predicate NoneContains(xs: seq<string>, d: char) { forall i :: 0 <= i < |xs| ==> d !in xs[i] }

  predicate NoneEmpty(xs: seq<string>) { forall i :: 0 <= i < |xs| ==> xs[i] != "" }

  lemma {:induction false} SplitWithout(x: string, d: char)
    requires d !in x
    ensures Split(x, d) == [x]
  {
    if x != [] {
      SplitWithout(x[1..], d);
      assert [x[0]] + x[1..] == x;
    }
  }

  /** A piece without the delimiter, the delimiter, then anything: the piece is the first item. */
  lemma {:induction false} SplitAfter(x: string, d: char, rest: string)
    requires d !in x
    ensures Split(x + [d] + rest, d) == [x] + Split(rest, d)
  {
    if x == [] {
      assert x + [d] + rest == [d] + rest;
      assert ([d] + rest)[1..] == rest;
    } else {
      var s := x + [d] + rest;
      assert s[1..] == x[1..] + [d] + rest;
      SplitAfter(x[1..], d, rest);
      assert [x[0]] + x[1..] == x;
    }
  }

  /** Splitting the items written with a delimiter after each gives them back,
    * followed by the empty piece after the last delimiter. */
  lemma {:induction false} SplitOfTerminated(xs: seq<string>, d: char)
    requires NoneContains(xs, d)
    ensures Split(Terminated(xs, [d]), d) == xs + [""]
  {
    if xs != [] {
      assert Terminated(xs, [d]) == xs[0] + [d] + Terminated(xs[1..], [d]);
      SplitAfter(xs[0], d, Terminated(xs[1..], [d]));
      SplitOfTerminated(xs[1..], d);
      assert [xs[0]] + xs[1..] == xs;
    }
  }

  /** `split_terminator` inverts the fold that writes a delimiter after every
    * item, for items that do not contain the delimiter. */
  lemma SplitTerminatorOfTerminated(xs: seq<string>, d: char)
    requires NoneContains(xs, d)
    ensures SplitTerminator(Terminated(xs, [d]), d) == xs
  {
    SplitOfTerminated(xs, d);
    assert (xs + [""])[..|xs|] == xs;
  }

  /** The first item followed by the others, each preceded by the delimiter, splits into all of them. */
  lemma {:induction false} SplitOfJoinedTail(x: string, xs: seq<string>, d: char)
    requires d !in x && NoneContains(xs, d)
    ensures Split(x + Prefixed(xs, [d]), d) == [x] + xs
    decreases |xs|
  {
    if xs == [] {
      assert x + Prefixed(xs, [d]) == x;
      SplitWithout(x, d);
    } else {
      assert x + Prefixed(xs, [d]) == x + [d] + (xs[0] + Prefixed(xs[1..], [d]));
      SplitAfter(x, d, xs[0] + Prefixed(xs[1..], [d]));
      SplitOfJoinedTail(xs[0], xs[1..], d);
      assert [xs[0]] + xs[1..] == xs;
    }
  }

  /** Prefixing one more item at the end. */
  lemma {:induction false} PrefixedSnoc(xs: seq<string>, x: string, sep: string)
    ensures Prefixed(xs + [x], sep) == Prefixed(xs, sep) + sep + x
    decreases |xs|
  {
    if xs == [] {
      assert [] + [x] == [x];
      assert [x][1..] == [];
    } else {
      assert (xs + [x])[1..] == xs[1..] + [x];
      PrefixedSnoc(xs[1..], x, sep);
    }
  }

  /** Joining one more item at the end: the separator, then the item. */
  lemma JoinedSnoc(xs: seq<string>, x: string, sep: string)
    ensures Joined(xs + [x], sep) == if xs == [] then x else Joined(xs, sep) + sep + x
  {
    if xs == [] {
      assert [] + [x] == [x];
      assert [x][1..] == [];
    } else {
      assert (xs + [x])[1..] == xs[1..] + [x];
      PrefixedSnoc(xs[1..], x, sep);
    }
  }

  /** A string is what comes before a position, then what comes after it. */
  lemma TakeDrop(s: string, n: nat)
    requires n <= |s|
    ensures s == s[..n] + s[n..]
  {
  }

  /** The first `i + 1` items are the first `i`, then item `i`. */
  lemma TakeSnoc<T>(xs: seq<T>, i: nat)
    requires i < |xs|
    ensures xs[..i + 1] == xs[..i] + [xs[i]]
  {
  }

  /** Concatenation regrouped, one step at a time where a long chain would
    * cost the solver too much. */
  lemma ConcatAssociates(a: string, b: string, c: string)
    ensures a + b + c == a + (b + c)
  {
  }

  /** Prefixing two runs of items one after the other. */
  lemma {:induction false} PrefixedAppend(xs: seq<string>, ys: seq<string>, sep: string)
    ensures Prefixed(xs + ys, sep) == Prefixed(xs, sep) + Prefixed(ys, sep)
    decreases |xs|
  {
    if xs == [] {
      assert xs + ys == ys;
    } else {
      assert (xs + ys)[0] == xs[0];
      assert (xs + ys)[1..] == xs[1..] + ys;
      PrefixedAppend(xs[1..], ys, sep);
    }
  }

  /** A character found in neither the items nor the separator is not in
    * their prefixed text. */
  lemma {:induction false} AbsentFromPrefixed(xs: seq<string>, sep: string, c: char)
    requires c !in sep && NoneContains(xs, c)
    ensures c !in Prefixed(xs, sep)
    decreases |xs|
  {
    if xs != [] {
      AbsentFromPrefixed(xs[1..], sep, c);
    }
  }

  /** Items joined by a delimiter split back into the same items. */
  lemma SplitOfJoined(xs: seq<string>, d: char)
    requires |xs| > 0 && NoneContains(xs, d)
    ensures Split(Joined(xs, [d]), d) == xs
  {
    SplitOfJoinedTail(xs[0], xs[1..], d);
    assert [xs[0]] + xs[1..] == xs;
  }

  /** `split_terminator` of items joined by a delimiter gives the items back
    * when the last one is not empty. */
  lemma SplitTerminatorOfJoined(xs: seq<string>, d: char)
    requires |xs| > 0 && NoneContains(xs, d) && xs[|xs| - 1] != ""
    ensures SplitTerminator(Joined(xs, [d]), d) == xs
  {
    SplitOfJoined(xs, d);
  }

  lemma {:induction false} NonEmptyOfNonEmpty(xs: seq<string>)
    requires NoneEmpty(xs)
    ensures NonEmpty(xs) == xs
  {
    if xs != [] {
      NonEmptyOfNonEmpty(xs[1..]);
      assert [xs[0]] + xs[1..] == xs;
    }
  }

  /** The optional-field pipeline of the parsers: the text captured for
    * `(\t<field>)*` is split on tabs and the empty pieces are dropped, which
    * gives back exactly the fields. */
  lemma FieldsOfPrefixed(xs: seq<string>)
    requires NoneContains(xs, '\t') && NoneEmpty(xs)
    ensures NonEmpty(SplitTerminator(Prefixed(xs, "\t"), '\t')) == xs
  {
    if xs == [] {
      assert Prefixed(xs, "\t") == "";
    } else {
      assert Prefixed(xs, "\t") == "" + Prefixed(xs, "\t");
      SplitOfJoinedTail("", xs, '\t');
      assert SplitTerminator(Prefixed(xs, "\t"), '\t') == [""] + xs;
      NonEmptyOfNonEmpty(xs);
      assert ([""] + xs)[1..] == xs;
    }
  }

  /** The fold that writes a separator after every item distributes over concatenation. */
  lemma {:induction false} TerminatedAppend(xs: seq<string>, ys: seq<string>, sep: string)
    ensures Terminated(xs + ys, sep) == Terminated(xs, sep) + Terminated(ys, sep)
  {
    if xs != [] {
      assert (xs + ys)[0] == xs[0];
      assert (xs + ys)[1..] == xs[1..] + ys;
      TerminatedAppend(xs[1..], ys, sep);
    } else {
      assert xs + ys == ys;
    }
  }

  /** A separator in front of the terminated items is the prefixed items plus a final separator. */
  lemma {:induction false} SeparatorThenTerminated(xs: seq<string>, sep: string)
    ensures sep + Terminated(xs, sep) == Prefixed(xs, sep) + sep
  {
    if xs != [] {
      SeparatorThenTerminated(xs[1..], sep);
      calc {
        sep + Terminated(xs, sep);
        sep + xs[0] + (sep + Terminated(xs[1..], sep));
        sep + xs[0] + (Prefixed(xs[1..], sep) + sep);
        Prefixed(xs, sep) + sep;
      }
    }
  }

  /** Dropping a prefix of `w` from `w + rest`. */
  lemma SliceAppend(w: string, rest: string, k: nat)
    requires k <= |w|
    ensures (w + rest)[k..] == w[k..] + rest
  {
  }

  /** A prefix of `s` cut in two at `n`. */
  lemma SliceSplit(s: string, n: nat, m: nat)
    requires n <= m <= |s|
    ensures s[..m] == s[..n] + s[n..][..m - n]
  {
  }

  lemma AllAppend(a: string, b: string, p: char -> bool)
    requires All(a, p) && All(b, p)
    ensures All(a + b, p)
  {
    forall i | 0 <= i < |a + b| ensures p((a + b)[i]) {
      if i >= |a| {
        assert (a + b)[i] == b[i - |a|];
      } else {
        assert (a + b)[i] == a[i];
      }
    }
  }

  /** The two halves of a concatenation, taken back apart. */
  lemma JoinedSlices(a: string, b: string)
    ensures (a + b)[..|a|] == a && (a + b)[|a|..] == b
  {
  }

  /** `r` relates the items of `xs` and `ys` at the same positions (stated
    * item by item, so that the solver unfolds it only on demand). */
  predicate Pointwise<A, B>(xs: seq<A>, ys: seq<B>, r: (A, B) -> bool)
    decreases |xs|
  {
    |xs| == |ys| && (xs != [] ==> r(xs[0], ys[0]) && Pointwise(xs[1..], ys[1..], r))
  }

  lemma {:induction false} PointwiseOf<A, B>(xs: seq<A>, ys: seq<B>, r: (A, B) -> bool)
    requires |xs| == |ys| && forall i :: 0 <= i < |xs| ==> r(xs[i], ys[i])
    ensures Pointwise(xs, ys, r)
    decreases |xs|
  {
    if xs != [] {
      assert forall i :: 0 <= i < |xs[1..]| ==> xs[1..][i] == xs[i + 1] && ys[1..][i] == ys[i + 1];
      PointwiseOf(xs[1..], ys[1..], r);
    }
  }

  lemma {:induction false} PointwiseAppend<A, B>(x1: seq<A>, y1: seq<B>, x2: seq<A>, y2: seq<B>, r: (A, B) -> bool)
    requires Pointwise(x1, y1, r) && Pointwise(x2, y2, r)
    ensures Pointwise(x1 + x2, y1 + y2, r)
    decreases |x1|
  {
    if x1 == [] {
      assert x1 + x2 == x2 && y1 + y2 == y2;
    } else {
      assert (x1 + x2)[1..] == x1[1..] + x2 && (y1 + y2)[1..] == y1[1..] + y2;
      PointwiseAppend(x1[1..], y1[1..], x2, y2, r);
    }
  }

  /** Cutting a concatenation inside its second half. */
  lemma SlicesAfter(a: string, b: string, k: nat)
    requires k <= |b|
    ensures (a + b)[..|a| + k] == a + b[..k] && (a + b)[|a| + k..] == b[k..]
  {
  }

  /** A prefix whose two halves satisfy `p` satisfies `p`. */
  lemma AllPrefix(s: string, k: nat, p: char -> bool)
    requires All(s, p) && k <= |s|
    ensures All(s[..k], p)
  {
    assert forall j :: 0 <= j < k ==> s[..k][j] == s[j];
  }

  lemma AllSplit(s: string, n: nat, m: nat, p: char -> bool)
    requires n <= m <= |s|
    requires All(s[..n], p) && All(s[n..][..m - n], p)
    ensures All(s[..m], p)
  {
    SliceSplit(s, n, m);
    AllAppend(s[..n], s[n..][..m - n], p);
  }

  /** Printable characters are printable or spaces. */
  lemma AllPrintableOrSpace(a: string)
    requires All(a, Printable)
    ensures All(a, PrintableOrSpace)
  {
    forall i | 0 <= i < |a| ensures PrintableOrSpace(a[i]) {
      assert Printable(a[i]);
    }
  }

  /** The first prefixed item, then the others, then what follows. */
  lemma PrefixedCons(xs: seq<string>, sep: string, rest: string)
    requires xs != []
    ensures Prefixed(xs, sep) + rest == sep + (xs[0] + (Prefixed(xs[1..], sep) + rest))
  {
  }

  /** A greedy run that stops inside `w` stops at the same place whatever follows `w`. */
  lemma SpanUnaffected(w: string, rest: string, p: char -> bool)
    requires Span(w, p) < |w|
    ensures Span(w + rest, p) == Span(w, p)
  {
    var n := Span(w, p);
    assert w + rest == w[..n] + (w[n..] + rest);
    SpanOfRun(w[..n], w[n..] + rest, p);
  }

  /** A greedy run within a prefix that holds all of it stops at the same place. */
  lemma {:induction false} SpanPrefix(s: string, j: nat, p: char -> bool)
    requires Span(s, p) <= j <= |s|
    ensures Span(s[..j], p) == Span(s, p)
    decreases |s|
  {
    if j == 0 {
      assert s[..j] == [];
    } else if !p(s[0]) {
      assert s[..j][0] == s[0];
    } else {
      SpanPrefix(s[1..], j - 1, p);
      assert s[..j][0] == s[0] && s[..j][1..] == s[1..][..j - 1];
    }
  }

  /** Items whose characters are all in a class, separated by a character of
    * that class, make a string whose characters are all in it. */
  lemma {:induction false} AllTerminated(xs: seq<string>, c: char, p: char -> bool)
    requires p(c) && forall i :: 0 <= i < |xs| ==> All(xs[i], p)
    ensures All(Terminated(xs, [c]), p)
  {
    if xs != [] {
      AllTerminated(xs[1..], c, p);
      var t := Terminated(xs[1..], [c]);
      assert Terminated(xs, [c]) == xs[0] + [c] + t;
      forall i | 0 <= i < |xs[0] + [c] + t| ensures p((xs[0] + [c] + t)[i]) {
        if i < |xs[0]| {
          assert (xs[0] + [c] + t)[i] == xs[0][i];
        } else if i == |xs[0]| {
          assert (xs[0] + [c] + t)[i] == c;
        } else {
          assert (xs[0] + [c] + t)[i] == t[i - |xs[0]| - 1];
        }
      }
    }
  }
}
