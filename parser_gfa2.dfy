/** The GFA 2.0 line parser. As for GFA 1.0, every field is read by an
  * anchored regular expression (nom's `re_find!`, leftmost-first, greedy),
  * written here as a recogniser returning the matched prefix and the rest of
  * the input. Lines whose first character names no record kind are kept
  * whole as custom records. */
module ParserGfa2 {
  import opened Text
  import opened Gfa2

  // ---------------------------------------------------------------------
  // Field recognisers
  // ---------------------------------------------------------------------

  /** A non-empty run of `[!-~]`. */
  predicate Word(w: string) { |w| > 0 && All(w, Printable) }

  /** `[!-~]+`: the longest non-empty run of printable non-space characters. */
  function ParseWord(input: string): (r: IResult<string>)
    ensures r.Error? <==> input == [] || !Printable(input[0])
    ensures r.Done? ==> input == r.value + r.rest && Word(r.value)
    ensures r.Done? ==> r.rest == [] || !Printable(r.rest[0])
  {
    var n := Span(input, Printable);
    if n == 0 then Error else Done(input[n..], input[..n])
  }

  lemma ParseWordOf(w: string, rest: string)
    requires Word(w) && (rest == [] || !Printable(rest[0]))
    ensures ParseWord(w + rest) == Done(rest, w)
  {
    SpanOfRun(w, rest, Printable);
  }

  /** A space followed by a word of printable characters. */
  lemma IdWordRun(s: string)
    requires |s| >= 2 && s[0] == ' ' && Printable(s[1])
    ensures var m := 1 + Span(s[1..], Printable);
      m <= |s| && All(s[..m], PrintableOrSpace) && Printable(s[m - 1])
  {
    var m := 1 + Span(s[1..], Printable);
    var w := s[1..][..m - 1];
    AllPrintableOrSpace(w);
    assert s[..m] == [' '] + w;
    AllAppend([' '], w, PrintableOrSpace);
    assert s[m - 1] == w[m - 2];
  }

  /** Length of the greedy `([ ][!-~]+)*` at the start of `s`. */
  function IdTail(s: string): (n: nat)
    ensures n <= |s|
    decreases |s|
  {
    if |s| >= 2 && s[0] == ' ' && Printable(s[1]) then
      var m := 1 + Span(s[1..], Printable);
      m + IdTail(s[m..])
    else 0
  }

  /** A word followed by a run of words is a run of words. */
  lemma RunsJoin(s: string, m: nat, t: nat)
    requires 0 < m && m + t <= |s|
    requires All(s[..m], PrintableOrSpace) && Printable(s[m - 1])
    requires All(s[m..][..t], PrintableOrSpace) && (t > 0 ==> Printable(s[m..][t - 1]))
    ensures All(s[..m + t], PrintableOrSpace) && Printable(s[m + t - 1])
  {
    AllSplit(s, m, m + t, PrintableOrSpace);
    if t > 0 {
      assert s[m + t - 1] == s[m..][t - 1];
    }
  }

  /** What `IdTail` reads is spaces and printable characters, ending in a printable one. */
  lemma {:induction false} IdTailRun(s: string)
    ensures All(s[..IdTail(s)], PrintableOrSpace)
    ensures IdTail(s) > 0 ==> Printable(s[IdTail(s) - 1])
    decreases |s|
  {
    if |s| >= 2 && s[0] == ' ' && Printable(s[1]) {
      var m := 1 + Span(s[1..], Printable);
      var t := IdTail(s[m..]);
      assert IdTail(s) == m + t;
      IdTailRun(s[m..]);
      IdWordRun(s);
      RunsJoin(s, m, t);
    }
  }

  /** The first word and the `([ ][!-~]+)*` after it form one run of
    * printable characters and spaces ending in a printable one. */
  lemma IdRun(input: string, n: nat, t: nat)
    requires 0 < n <= |input| && All(input[..n], Printable)
    requires t <= |input| - n && All(input[n..][..t], PrintableOrSpace)
    requires t > 0 ==> Printable(input[n..][t - 1])
    ensures All(input[..n + t], PrintableOrSpace) && Printable(input[n + t - 1])
  {
    AllPrintableOrSpace(input[..n]);
    AllSplit(input, n, n + t, PrintableOrSpace);
    if t == 0 {
      assert input[n - 1] == input[..n][n - 1];
    } else {
      assert input[n + t - 1] == input[n..][t - 1];
    }
  }

  /** The language of `[!-~]+([ ][!-~]+)*`: words of printable characters
    * separated by single spaces. */
  predicate IsId(w: string)
    decreases |w|
  {
    var n := Span(w, Printable);
    0 < n && (n == |w| || (w[n] == ' ' && IsId(w[n + 1..])))
  }

  /** A word, then nothing or a space and an id, is an id. */
  lemma IdOfWord(v: string, k: nat)
    requires 0 < k <= |v| && All(v[..k], Printable)
    requires k == |v| || (v[k] == ' ' && IsId(v[k + 1..]))
    ensures IsId(v)
  {
    assert v == v[..k] + v[k..];
    assert k < |v| ==> v[k..][0] == ' ';
    SpanOfRun(v[..k], v[k..], Printable);
    var n := Span(v, Printable);
    assert n == k;
    assert 0 < n && (n == |v| || (v[n] == ' ' && IsId(v[n + 1..])));
  }

  /** The tail that ends an id: no printable character, and no space
    * followed by one. */
  predicate EndsId(rest: string)
  {
    (rest == [] || !Printable(rest[0])) && !(|rest| >= 2 && rest[0] == ' ' && Printable(rest[1]))
  }

  /** A word at the start of `s`, then nothing or a space and an id, make an id. */
  lemma IdJoin(s: string, n: nat, t: nat)
    requires 0 < n && n + t <= |s| && All(s[..n], Printable)
    requires t == 0 || (s[n..][0] == ' ' && IsId(s[n..][1..t]))
    ensures IsId(s[..n + t])
  {
    var v := s[..n + t];
    assert v[..n] == s[..n];
    if t > 0 {
      assert v[n] == s[n..][0] && v[n + 1..] == s[n..][1..t];
    }
    IdOfWord(v, n);
  }

  /** What `IdTail` reads is a space and then an id. */
  lemma {:induction false} IdTailSound(s: string)
    ensures IdTail(s) > 0 ==> s[0] == ' ' && IsId(s[1..IdTail(s)])
    decreases |s|
  {
    if |s| >= 2 && s[0] == ' ' && Printable(s[1]) {
      var m := 1 + Span(s[1..], Printable);
      var t := IdTail(s[m..]);
      assert IdTail(s) == m + t;
      IdTailSound(s[m..]);
      assert s[1..][m - 1..] == s[m..];
      IdJoin(s[1..], m - 1, t);
      assert s[1..][..m - 1 + t] == s[1..m + t];
    }
  }

  /** After what `IdTail` reads, neither a space and a word nor (when it read
    * anything) a printable character follows. */
  lemma {:induction false} IdTailMaximal(s: string)
    ensures var e := s[IdTail(s)..]; !(|e| >= 2 && e[0] == ' ' && Printable(e[1]))
    ensures IdTail(s) > 0 ==> IdTail(s) == |s| || !Printable(s[IdTail(s)])
    decreases |s|
  {
    if |s| >= 2 && s[0] == ' ' && Printable(s[1]) {
      var m := 1 + Span(s[1..], Printable);
      var t := IdTail(s[m..]);
      assert IdTail(s) == m + t;
      IdTailMaximal(s[m..]);
      assert s[m..][t..] == s[m + t..];
      if t == 0 && m < |s| {
        assert s[m] == s[1..][m - 1];
      }
    } else {
      assert s[0..] == s;
    }
  }

  /** The first word and what `IdTail` reads after it form an id, and the id
    * cannot be extended. */
  lemma IdFromParts(input: string, n: nat, t: nat)
    requires 0 < n == Span(input, Printable) && t == IdTail(input[n..])
    ensures n + t <= |input| && IsId(input[..n + t]) && EndsId(input[n + t..])
  {
    IdTailSound(input[n..]);
    IdTailMaximal(input[n..]);
    assert input[n..][t..] == input[n + t..];
    if t > 0 {
      assert n + t < |input| ==> input[n + t] == input[n..][t];
    }
    IdJoin(input, n, t);
  }

  /** `parse_id`: `^([!-~]+([ ][!-~]+)*)`, words separated by single spaces,
    * as many as follow. */
  function ParseId(input: string): (r: IResult<string>)
    ensures r.Error? <==> input == [] || !Printable(input[0])
    ensures r.Done? ==> input == r.value + r.rest && |r.value| > 0
    ensures r.Done? ==> Printable(r.value[0]) && Printable(r.value[|r.value| - 1]) && All(r.value, PrintableOrSpace)
    ensures r.Done? ==> IsId(r.value)
    ensures r.Done? ==> EndsId(r.rest)
  {
    var n := Span(input, Printable);
    if n == 0 then Error
    else
      var t := IdTail(input[n..]);
      IdTailRun(input[n..]);
      IdRun(input, n, t);
      IdFromParts(input, n, t);
      TakeDrop(input, n + t);
      Done(input[n + t..], input[..n + t])
  }

  /** One space and one word, then whatever follows them. */
  lemma IdStep(w: string, tail: string)
    requires Word(w) && (tail == [] || !Printable(tail[0]))
    ensures IdTail(" " + (w + tail)) == 1 + |w| + IdTail(tail)
  {
    var s := " " + (w + tail);
    assert s[1..] == w + tail;
    SpanOfRun(w, tail, Printable);
    assert s[1 + |w|..] == tail;
  }

  /** Words, each followed by nothing that continues an id, are read together
    * with the single spaces between them. */
  lemma {:induction false} IdTailOf(ws: seq<string>, rest: string)
    requires forall i :: 0 <= i < |ws| ==> Word(ws[i])
    requires rest == [] || !Printable(rest[0])
    requires !(|rest| >= 2 && rest[0] == ' ' && Printable(rest[1]))
    ensures IdTail(Prefixed(ws, " ") + rest) == |Prefixed(ws, " ")|
    decreases |ws|
  {
    if ws != [] {
      var tail := Prefixed(ws[1..], " ") + rest;
      PrefixedCons(ws, " ", rest);
      if ws[1..] != [] {
        PrefixedCons(ws[1..], " ", rest);
      }
      IdStep(ws[0], tail);
      IdTailOf(ws[1..], rest);
    }
  }

  /** `parse_id` from the lengths of its two parts. */
  lemma ParseIdFrom(input: string, n: nat, t: nat)
    requires 0 < n == Span(input, Printable) && t == IdTail(input[n..])
    ensures ParseId(input) == Done(input[n + t..], input[..n + t])
  {
  }

  /** `parse_id` reads a first word and then what `IdTail` reads after it. */
  lemma ParseIdSplit(w: string, tail: string)
    requires Word(w) && (tail == [] || !Printable(tail[0]))
    ensures var k := IdTail(tail);
      ParseId(w + tail) == Done(tail[k..], w + tail[..k])
  {
    var k := IdTail(tail);
    SpanOfRun(w, tail, Printable);
    JoinedSlices(w, tail);
    ParseIdFrom(w + tail, |w|, k);
    SlicesAfter(w, tail, k);
  }

  lemma ParseIdOf(ws: seq<string>, rest: string)
    requires |ws| > 0 && forall i :: 0 <= i < |ws| ==> Word(ws[i])
    requires rest == [] || !Printable(rest[0])
    requires !(|rest| >= 2 && rest[0] == ' ' && Printable(rest[1]))
    ensures ParseId(Joined(ws, " ") + rest) == Done(rest, Joined(ws, " "))
  {
    var p := Prefixed(ws[1..], " ");
    var tail := p + rest;
    if ws[1..] != [] {
      PrefixedCons(ws[1..], " ", rest);
    }
    IdTailOf(ws[1..], rest);
    ParseIdSplit(ws[0], tail);
    JoinedSlices(p, rest);
    assert Joined(ws, " ") + rest == ws[0] + tail;
  }

  /** `parse_opt_id`: `^([!-~]+|\*)`; the first alternative already takes `*`. */
  function ParseOptId(input: string): IResult<string>
  {
    ParseWord(input)
  }

  /** `parse_pos`: `^([!-~]+\$?)`; the run already takes a final `$`. */
  function ParsePos(input: string): IResult<string>
  {
    ParseWord(input)
  }

  predicate Sign(c: char) { c == '+' || c == '-' }

  /** A segment reference: printable, at least two characters, ending in `+` or `-`. */
  predicate IsRef(w: string) { Word(w) && |w| >= 2 && Sign(w[|w| - 1]) }

  /** The longest prefix of `s[..k]` of length at least two that ends in a
    * sign, or 0: where `[!-~]+[+-]` stops after backtracking from the end of
    * the run of length `k`. */
  function SignedPrefix(s: string, k: nat): (n: nat)
    requires k <= |s|
    ensures n <= k && (n > 0 ==> n >= 2 && Sign(s[n - 1]))
    ensures forall j :: n <= j < k && j >= 1 ==> !Sign(s[j])
  {
    if k < 2 then 0 else if Sign(s[k - 1]) then k else SignedPrefix(s, k - 1)
  }

  /** One `[!-~]+[+-]` token at the start of `s`: its length, or 0. */
  function RefToken(s: string): (n: nat)
    ensures n <= |s| && (n > 0 ==> IsRef(s[..n]))
  {
    var k := Span(s, Printable);
    var n := SignedPrefix(s, k);
    assert n > 0 ==> s[..n] == s[..k][..n];
    n
  }

  /** Length of the greedy `([ ][!-~]+[+-])*` at the start of `s`. */
  function RefTail(s: string): (n: nat)
    ensures n <= |s|
    decreases |s|
  {
    if |s| > 0 && s[0] == ' ' then
      var m := RefToken(s[1..]);
      if m == 0 then 0 else 1 + m + RefTail(s[1 + m..])
    else 0
  }

  /** The language of `[!-~]+[+-]([ ][!-~]+[+-])*`: references separated by
    * single spaces. */
  predicate IsRefList(w: string)
    decreases |w|
  {
    var n := Span(w, Printable);
    IsRef(w[..n]) && (n == |w| || (w[n] == ' ' && IsRefList(w[n + 1..])))
  }

  /** A reference, then nothing or a space and a list, is a list. */
  lemma RefListOfToken(v: string, k: nat)
    requires 0 < k <= |v| && IsRef(v[..k])
    requires k == |v| || (v[k] == ' ' && IsRefList(v[k + 1..]))
    ensures IsRefList(v)
  {
    assert v == v[..k] + v[k..];
    assert k < |v| ==> v[k..][0] == ' ';
    SpanOfRun(v[..k], v[k..], Printable);
    var n := Span(v, Printable);
    assert n == k;
    assert IsRef(v[..n]) && (n == |v| || (v[n] == ' ' && IsRefList(v[n + 1..])));
  }

  /** A reference at the start of `s`, then nothing or a space and a list,
    * make a list. */
  lemma RefListJoin(s: string, n: nat, t: nat)
    requires 0 < n && n + t <= |s| && IsRef(s[..n])
    requires t == 0 || (s[n..][0] == ' ' && IsRefList(s[n..][1..t]))
    ensures IsRefList(s[..n + t])
  {
    var v := s[..n + t];
    assert v[..n] == s[..n];
    if t > 0 {
      assert v[n] == s[n..][0] && v[n + 1..] == s[n..][1..t];
    }
    RefListOfToken(v, n);
  }

  /** A space and one reference, then what `RefTail` reads after them. */
  lemma RefTailUnfold(s: string)
    requires |s| > 0 && s[0] == ' ' && RefToken(s[1..]) > 0
    ensures var m := RefToken(s[1..]); RefTail(s) == 1 + m + RefTail(s[1 + m..])
  {
  }

  /** The tail that ends a list of references: anything but a space
    * followed by another reference. */
  predicate EndsRefs(rest: string)
  {
    rest == [] || rest[0] != ' ' || RefToken(rest[1..]) == 0
  }

  /** What `RefTail` reads is a space and then a list of references. */
  lemma {:induction false} RefTailSound(s: string)
    ensures RefTail(s) > 0 ==> s[0] == ' ' && IsRefList(s[1..RefTail(s)])
    decreases |s|
  {
    if |s| > 0 && s[0] == ' ' && RefToken(s[1..]) > 0 {
      var m := RefToken(s[1..]);
      var t := RefTail(s[1 + m..]);
      assert RefTail(s) == 1 + m + t by {
        RefTailUnfold(s);
      }
      assert IsRefList(s[1..][..m + t]) by {
        RefTailSound(s[1 + m..]);
        assert s[1..][m..] == s[1 + m..];
        RefListJoin(s[1..], m, t);
      }
      assert s[1..][..m + t] == s[1..RefTail(s)];
    } else {
      assert RefTail(s) == 0;
    }
  }

  /** After what `RefTail` reads, no space and reference follow. */
  lemma {:induction false} RefTailMaximal(s: string)
    ensures EndsRefs(s[RefTail(s)..])
    decreases |s|
  {
    if |s| > 0 && s[0] == ' ' && RefToken(s[1..]) > 0 {
      var m := RefToken(s[1..]);
      RefTailUnfold(s);
      RefTailMaximal(s[1 + m..]);
      assert s[1 + m..][RefTail(s[1 + m..])..] == s[RefTail(s)..];
    } else {
      assert RefTail(s) == 0 && s[0..] == s;
    }
  }

  /** The first reference and what `RefTail` reads after it form a list that
    * cannot be extended. */
  lemma RefFromParts(input: string, n: nat, t: nat)
    requires 0 < n == RefToken(input) && t == RefTail(input[n..])
    ensures n + t <= |input| && IsRefList(input[..n + t]) && EndsRefs(input[n + t..])
  {
    RefTailSound(input[n..]);
    RefTailMaximal(input[n..]);
    assert input[n..][t..] == input[n + t..];
    RefListJoin(input, n, t);
  }

  /** `parse_ref`: `^([!-~]+[+-]([ ][!-~]+[+-])*)`, references separated by
    * single spaces, as many as follow. */
  function ParseRef(input: string): (r: IResult<string>)
    ensures r.Error? <==> RefToken(input) == 0
    ensures r.Done? ==> input == r.value + r.rest && RefToken(input) <= |r.value|
    ensures r.Done? ==> IsRef(r.value[..RefToken(input)])
    ensures r.Done? ==> IsRefList(r.value)
    ensures r.Done? ==> EndsRefs(r.rest)
  {
    var n := RefToken(input);
    if n == 0 then Error
    else
      var t := RefTail(input[n..]);
      RefSlices(input, n, t);
      RefFromParts(input, n, t);
      Done(input[n + t..], input[..n + t])
  }

  /** The token and its continuation are read as one prefix of the input. */
  lemma RefSlices(input: string, n: nat, t: nat)
    requires n + t <= |input| && IsRef(input[..n])
    ensures input == input[..n + t] + input[n + t..] && IsRef(input[..n + t][..n])
  {
    assert input[..n + t][..n] == input[..n];
  }

  /** A reference token followed by a tab (or the end) is read alone. */
  lemma ParseRefOf(w: string, rest: string)
    requires IsRef(w) && (rest == [] || rest[0] == '\t')
    ensures ParseRef(w + rest) == Done(rest, w)
  {
    SpanOfRun(w, rest, Printable);
    assert (w + rest)[|w| - 1] == w[|w| - 1];
    assert RefToken(w + rest) == |w|;
    assert (w + rest)[|w|..] == rest;
  }

  /** `[ABHJZif]`: a tag type. */
  predicate TagType(c: char) { c in "ABHJZif" }

  /** The language of `[A-Za-z0-9][A-Za-z0-9]:[ABHJZif]:[ -~]*`. */
  predicate IsTag(t: string)
  {
    |t| >= 5 && Alphanumeric(t[0]) && Alphanumeric(t[1]) && t[2] == ':' && TagType(t[3]) && t[4] == ':'
    && All(t[5..], PrintableOrSpace)
  }

  /** Whether `s` starts with a tab and the head `XX:T:` of a tag. */
  predicate TagStart(s: string)
  {
    |s| >= 6 && s[0] == '\t' && Alphanumeric(s[1]) && Alphanumeric(s[2]) && s[3] == ':' && TagType(s[4])
    && s[5] == ':'
  }

  /** Length of the greedy `(\t<tag>)*` at the start of `s`. */
  function TagsLength(s: string): (n: nat)
    ensures n <= |s|
    decreases |s|
  {
    if TagStart(s) then
      var k := 6 + Span(s[6..], PrintableOrSpace);
      k + TagsLength(s[k..])
    else 0
  }

  /** `parse_tag`: `^(\t<tag>)*`; never fails, reads nothing when no tag
    * follows, and otherwise reads every tag that follows, each value as long
    * as it goes. */
  function ParseTags(input: string): (r: IResult<string>)
    ensures r.Done? && input == r.value + r.rest
    ensures r.value == "" <==> !TagStart(input)
    ensures var tags := MatchedTags(input);
      r.value == Prefixed(tags, "\t") && forall i :: 0 <= i < |tags| ==> IsTag(tags[i])
    ensures !TagStart(r.rest) && (r.value != "" ==> r.rest == [] || !PrintableOrSpace(r.rest[0]))
  {
    var n := TagsLength(input);
    TagsMatched(input);
    TagsMaximal(input);
    Done(input[n..], input[..n])
  }

  /** The tag at the start of `s`, behind its tab, is a tag. */
  lemma TagOfStart(s: string)
    requires TagStart(s)
    ensures IsTag(s[1..6 + Span(s[6..], PrintableOrSpace)])
  {
    var k := 6 + Span(s[6..], PrintableOrSpace);
    var t := s[1..k];
    assert t[0] == s[1] && t[1] == s[2] && t[2] == s[3] && t[3] == s[4] && t[4] == s[5];
    assert t[5..] == s[6..][..k - 6];
  }

  /** The tags the greedy `(\t<tag>)*` reads, in order. */
  function MatchedTags(s: string): (tags: seq<string>)
    ensures forall i :: 0 <= i < |tags| ==> IsTag(tags[i])
    decreases |s|
  {
    if TagStart(s) then
      var k := 6 + Span(s[6..], PrintableOrSpace);
      TagOfStart(s);
      [s[1..k]] + MatchedTags(s[k..])
    else []
  }

  /** One tag behind a tab, then the tags after it. */
  lemma TagsUnfold(s: string)
    requires TagStart(s)
    ensures var n := 6 + Span(s[6..], PrintableOrSpace);
      TagsLength(s) == n + TagsLength(s[n..]) && MatchedTags(s) == [s[1..n]] + MatchedTags(s[n..])
      && s[..n] == "\t" + s[1..n]
  {
  }

  /** The text the tags span is those tags, each after a tab. */
  lemma {:induction false} TagsMatched(s: string)
    ensures s[..TagsLength(s)] == Prefixed(MatchedTags(s), "\t")
    decreases |s|
  {
    if TagStart(s) {
      var n := 6 + Span(s[6..], PrintableOrSpace);
      var t := s[n..];
      TagsUnfold(s);
      TagsMatched(t);
      SliceSplit(s, n, n + TagsLength(t));
      PrefixedCons(MatchedTags(s), "\t", []);
      assert MatchedTags(s)[1..] == MatchedTags(t);
    }
  }

  /** No further tag follows the greedy run, and the last value read cannot
    * be extended. */
  lemma {:induction false} TagsMaximal(s: string)
    ensures !TagStart(s[TagsLength(s)..])
    ensures TagsLength(s) > 0 ==> TagsLength(s) == |s| || !PrintableOrSpace(s[TagsLength(s)])
    decreases |s|
  {
    if TagStart(s) {
      var n := 6 + Span(s[6..], PrintableOrSpace);
      var k := TagsLength(s[n..]);
      assert TagsLength(s) == n + k;
      TagsMaximal(s[n..]);
      assert s[n..][k..] == s[n + k..];
      if k == 0 && n < |s| {
        assert s[n] == s[6..][n - 6];
      }
    } else {
      assert s[0..] == s;
    }
  }

  lemma TagStartOf(t: string, tail: string)
    requires IsTag(t)
    ensures TagStart("\t" + (t + tail))
  {
    var s := "\t" + (t + tail);
    assert s[1] == t[0] && s[2] == t[1] && s[3] == t[2] && s[4] == t[3] && s[5] == t[4];
  }

  lemma TagValueStart(t: string, tail: string)
    requires |t| >= 5
    ensures ("\t" + (t + tail))[6..] == t[5..] + tail
  {
  }

  /** One tag behind a tab, then whatever follows it. */
  lemma TagStep(t: string, tail: string)
    requires IsTag(t) && (tail == [] || tail[0] == '\t')
    ensures TagsLength("\t" + (t + tail)) == 1 + |t| + TagsLength(tail)
  {
    TagStartOf(t, tail);
    TagValueStart(t, tail);
    SpanOfRun(t[5..], tail, PrintableOrSpace);
    SliceAppend(t[5..], tail, |t[5..]|);
  }

  lemma {:induction false} TagsLengthOf(tags: seq<string>, rest: string)
    requires forall i :: 0 <= i < |tags| ==> IsTag(tags[i])
    requires (rest == [] || rest[0] == '\t') && !TagStart(rest)
    ensures TagsLength(Prefixed(tags, "\t") + rest) == |Prefixed(tags, "\t")|
    decreases |tags|
  {
    if tags != [] {
      var tail := Prefixed(tags[1..], "\t") + rest;
      PrefixedCons(tags, "\t", rest);
      if tags[1..] != [] {
        PrefixedCons(tags[1..], "\t", rest);
      }
      TagStep(tags[0], tail);
      TagsLengthOf(tags[1..], rest);
    }
  }

  /** Tags, each behind a tab, are read as a whole; splitting the capture at
    * tabs and dropping the empty pieces gives the tags back. */
  lemma ParseTagsOf(tags: seq<string>, rest: string)
    requires forall i :: 0 <= i < |tags| ==> IsTag(tags[i])
    requires (rest == [] || rest[0] == '\t') && !TagStart(rest)
    ensures ParseTags(Prefixed(tags, "\t") + rest) == Done(rest, Prefixed(tags, "\t"))
    ensures Fields(Prefixed(tags, "\t")) == tags
  {
    TagsLengthOf(tags, rest);
    var s := Prefixed(tags, "\t") + rest;
    assert s[..|Prefixed(tags, "\t")|] == Prefixed(tags, "\t");
    TagsAreFields(tags);
    FieldsOfPrefixed(tags);
  }

  lemma TagsAreFields(tags: seq<string>)
    requires forall i :: 0 <= i < |tags| ==> IsTag(tags[i])
    ensures NoneContains(tags, '\t') && NoneEmpty(tags)
  {
    forall i | 0 <= i < |tags| ensures '\t' !in tags[i] {
      var t := tags[i];
      forall j | 0 <= j < |t| ensures t[j] != '\t' {
        if j >= 5 {
          assert t[j] == t[5..][j - 5];
        }
      }
    }
  }

  /** `parse_sequence`: `^(\*|[!-~]+)`; a leading `*` is read alone. */
  function ParseSequence(input: string): (r: IResult<string>)
    ensures r.Error? <==> input == [] || !Printable(input[0])
    ensures r.Done? ==> input == r.value + r.rest && Word(r.value)
    ensures r.Done? && input[0] == '*' ==> r.value == "*"
    ensures r.Done? ==> IsSequence(r.value)
    ensures r.Done? && r.value != "*" ==> r.rest == [] || !Printable(r.rest[0])
  {
    if |input| > 0 && input[0] == '*' then Done(input[1..], "*") else ParseWord(input)
  }

  /** The language `parse_sequence` reads whole: `*`, or a run not starting with `*`. */
  predicate IsSequence(w: string) { w == "*" || (Word(w) && w[0] != '*') }

  lemma ParseSequenceOf(w: string, rest: string)
    requires IsSequence(w) && (rest == [] || !Printable(rest[0]))
    ensures ParseSequence(w + rest) == Done(rest, w)
  {
    if w != "*" {
      ParseWordOf(w, rest);
    }
  }

  /** `-?[0-9]+` at the start of `s`: its length, or 0. */
  function SignedDigits(s: string): (n: nat)
    ensures n <= |s|
  {
    var m := if |s| > 0 && s[0] == '-' then 1 else 0;
    var d := Span(s[m..], Digit);
    if d == 0 then 0 else m + d
  }

  /** The language of `-?[0-9]+`. */
  predicate IsInt(w: string)
  {
    (|w| > 0 && All(w, Digit)) || (|w| > 1 && w[0] == '-' && All(w[1..], Digit))
  }

  /** `parse_int`: `^(\-?[0-9]+)`. */
  function ParseInt(input: string): (r: IResult<string>)
    ensures r.Error? <==> SignedDigits(input) == 0
    ensures r.Done? ==> input == r.value + r.rest && IsInt(r.value)
    ensures r.Done? ==> r.rest == [] || !Digit(r.rest[0])
  {
    var n := SignedDigits(input);
    if n == 0 then Error
    else
      assert input[0] == '-' ==> input[..n][1..] == input[1..][..n - 1];
      Done(input[n..], input[..n])
  }

  lemma ParseIntOf(w: string, rest: string)
    requires IsInt(w) && (rest == [] || !Digit(rest[0]))
    ensures ParseInt(w + rest) == Done(rest, w)
  {
    if |w| > 0 && All(w, Digit) {
      SpanOfRun(w, rest, Digit);
    } else {
      assert (w + rest)[1..] == w[1..] + rest;
      SpanOfRun(w[1..], rest, Digit);
    }
  }

  /** `parse_var`: `^(\*|\-?[0-9]+)`. */
  function ParseVar(input: string): (r: IResult<string>)
    ensures r.Error? <==> (input == [] || input[0] != '*') && SignedDigits(input) == 0
    ensures r.Done? ==> input == r.value + r.rest && (r.value == "*" || IsInt(r.value))
    ensures r.Done? && r.value != "*" ==> r.rest == [] || !Digit(r.rest[0])
  {
    if |input| > 0 && input[0] == '*' then Done(input[1..], "*") else ParseInt(input)
  }

  lemma ParseVarOf(w: string, rest: string)
    requires (w == "*" || IsInt(w)) && (rest == [] || !Digit(rest[0]))
    ensures ParseVar(w + rest) == Done(rest, w)
  {
    if w != "*" {
      ParseIntOf(w, rest);
    }
  }

  /** `[MDIP]`: a GFA 2.0 CIGAR operation. */
  predicate AlignmentOp(c: char) { c == 'M' || c == 'D' || c == 'I' || c == 'P' }

  /** Length of the greedy `([0-9]+[MDIP])*` at the start of `s`. */
  function CigarLength(s: string): (n: nat)
    ensures n <= |s|
    decreases |s|
  {
    var d := Span(s, Digit);
    if 0 < d < |s| && AlignmentOp(s[d]) then d + 1 + CigarLength(s[d + 1..]) else 0
  }

  /** Length of the greedy `(,-?[0-9]+)*` at the start of `s`. */
  function TraceTail(s: string): (n: nat)
    ensures n <= |s|
    decreases |s|
  {
    if |s| > 0 && s[0] == ',' then
      var k := SignedDigits(s[1..]);
      if k == 0 then 0 else 1 + k + TraceTail(s[1 + k..])
    else 0
  }

  /** The language of `-?[0-9]+(,-?[0-9]+)*`: signed integers separated by commas. */
  predicate IsTrace(w: string)
    decreases |w|
  {
    var k := SignedDigits(w);
    k > 0 && (k == |w| || (w[k] == ',' && IsTrace(w[k + 1..])))
  }

  /** The language of `\*|([0-9]+[MDIP])+|(\-?[0-9]+(,\-?[0-9]+)*)`. */
  predicate IsAlignment(a: string) { a == "*" || IsCigar(a) || IsTrace(a) }

  /** `parse_alignment`: `^(\*|([0-9]+[MDIP])+|(\-?[0-9]+(,\-?[0-9]+)*))`, the
    * alternatives tried in that order, each read as far as it goes. */
  function ParseAlignment(input: string): (r: IResult<string>)
    ensures r.Error? <==> (input == [] || input[0] != '*') && CigarLength(input) == 0 && SignedDigits(input) == 0
    ensures r.Done? ==> input == r.value + r.rest && |r.value| > 0
    ensures r.Done? && |input| > 0 && input[0] == '*' ==> r.value == "*"
    ensures r.Done? && (input == [] || input[0] != '*') && CigarLength(input) > 0 ==> |r.value| == CigarLength(input)
    ensures r.Done? ==> IsAlignment(r.value)
    ensures r.Done? && (input == [] || input[0] != '*') && CigarLength(input) > 0 ==>
      IsCigar(r.value) && CigarLength(r.rest) == 0
    ensures r.Done? && (input == [] || input[0] != '*') && CigarLength(input) == 0 ==>
      IsTrace(r.value) && EndsTrace(r.rest)
  {
    if |input| > 0 && input[0] == '*' then
      TakeDrop(input, 1);
      Done(input[1..], "*")
    else
      var c := CigarLength(input);
      if c > 0 then
        TakeDrop(input, c);
        CigarLengthSound(input);
        CigarLengthMaximal(input);
        Done(input[c..], input[..c])
      else
        var k := SignedDigits(input);
        if k == 0 then Error
        else
          var t := TraceTail(input[k..]);
          var n := k + t;
          TakeDrop(input, n);
          TraceFromParts(input, k, t);
          Done(input[n..], input[..n])
  }

  /** The tail that ends a trace: no digit that would lengthen its last
    * number, and no comma and number that would add another. */
  predicate EndsTrace(rest: string)
  {
    (rest == [] || !Digit(rest[0])) && TraceTail(rest) == 0
  }

  /** Where `-?[0-9]+` stops, no digit follows. */
  lemma SignedDigitsMaximal(s: string)
    requires SignedDigits(s) > 0
    ensures SignedDigits(s) == |s| || !Digit(s[SignedDigits(s)])
  {
    var m := if s[0] == '-' then 1 else 0;
    var d := Span(s[m..], Digit);
    assert m + d < |s| ==> s[m + d] == s[m..][d];
  }

  /** `-?[0-9]+` reads the same within any prefix that holds what it reads. */
  lemma SignedDigitsPrefix(s: string, j: nat)
    requires 0 < SignedDigits(s) <= j <= |s|
    ensures SignedDigits(s[..j]) == SignedDigits(s)
  {
    var m := if s[0] == '-' then 1 else 0;
    assert s[..j][0] == s[0];
    assert s[..j][m..] == s[m..][..j - m];
    SpanPrefix(s[m..], j - m, Digit);
  }

  /** A number at the start of `s`, then nothing or a comma and a trace, make
    * a trace. */
  lemma TraceJoin(s: string, k: nat, t: nat)
    requires 0 < k == SignedDigits(s) && k + t <= |s|
    requires t == 0 || (s[k..][0] == ',' && IsTrace(s[k..][1..t]))
    ensures IsTrace(s[..k + t])
  {
    var v := s[..k + t];
    SignedDigitsPrefix(s, k + t);
    if t > 0 {
      assert v[k] == s[k..][0] && v[k + 1..] == s[k..][1..t];
    }
    assert SignedDigits(v) == k && (k == |v| || (v[k] == ',' && IsTrace(v[k + 1..])));
  }

  /** A comma and one number, then what `TraceTail` reads after them. */
  lemma TraceTailUnfold(s: string)
    requires |s| > 0 && s[0] == ',' && SignedDigits(s[1..]) > 0
    ensures var k := SignedDigits(s[1..]); TraceTail(s) == 1 + k + TraceTail(s[1 + k..])
  {
  }

  /** What `TraceTail` reads is a comma and then a trace. */
  lemma {:induction false} TraceTailSound(s: string)
    ensures TraceTail(s) > 0 ==> s[0] == ',' && IsTrace(s[1..TraceTail(s)])
    decreases |s|
  {
    if |s| > 0 && s[0] == ',' && SignedDigits(s[1..]) > 0 {
      var k := SignedDigits(s[1..]);
      var t := TraceTail(s[1 + k..]);
      TraceTailUnfold(s);
      TraceTailSound(s[1 + k..]);
      assert s[1..][k..] == s[1 + k..];
      TraceJoin(s[1..], k, t);
      assert s[1..][..k + t] == s[1..1 + k + t];
    }
  }

  /** After what `TraceTail` reads, no comma and number follow. */
  lemma {:induction false} TraceTailMaximal(s: string)
    ensures TraceTail(s[TraceTail(s)..]) == 0
    decreases |s|
  {
    if |s| > 0 && s[0] == ',' && SignedDigits(s[1..]) > 0 {
      var k := SignedDigits(s[1..]);
      TraceTailUnfold(s);
      TraceTailMaximal(s[1 + k..]);
      assert s[1 + k..][TraceTail(s[1 + k..])..] == s[TraceTail(s)..];
    } else {
      assert TraceTail(s) == 0 && s[0..] == s;
    }
  }

  /** When `TraceTail` reads anything, no digit follows its last number. */
  lemma {:induction false} TraceTailEndsNumber(s: string)
    ensures TraceTail(s) > 0 ==> TraceTail(s) == |s| || !Digit(s[TraceTail(s)])
    decreases |s|
  {
    if |s| > 0 && s[0] == ',' && SignedDigits(s[1..]) > 0 {
      var k := SignedDigits(s[1..]);
      var t := TraceTail(s[1 + k..]);
      var n := 1 + k + t;
      assert TraceTail(s) == n by {
        TraceTailUnfold(s);
      }
      if t == 0 {
        assert n == |s| || !Digit(s[n]) by {
          SignedDigitsMaximal(s[1..]);
          assert n < |s| ==> s[n] == s[1..][k];
        }
      } else {
        assert n == |s| || !Digit(s[n]) by {
          TraceTailEndsNumber(s[1 + k..]);
          assert n < |s| ==> s[n] == s[1 + k..][t];
        }
      }
    } else {
      assert TraceTail(s) == 0;
    }
  }

  /** The first number and what `TraceTail` reads after it form a trace that
    * cannot be extended. */
  lemma TraceFromParts(input: string, k: nat, t: nat)
    requires 0 < k == SignedDigits(input) && t == TraceTail(input[k..])
    ensures k + t <= |input| && IsTrace(input[..k + t]) && EndsTrace(input[k + t..])
  {
    TraceTailSound(input[k..]);
    TraceTailMaximal(input[k..]);
    TraceTailEndsNumber(input[k..]);
    assert input[k..][t..] == input[k + t..];
    if t == 0 {
      SignedDigitsMaximal(input);
    } else {
      assert k + t < |input| ==> input[k + t] == input[k..][t];
    }
    TraceJoin(input, k, t);
  }

  /** The language `parse_alignment` reads whole when a tab follows: `*`, or
    * a run of CIGAR units. */
  predicate IsCigar(w: string)
    decreases |w|
  {
    var d := Span(w, Digit);
    0 < d < |w| && AlignmentOp(w[d]) && (d + 1 == |w| || IsCigar(w[d + 1..]))
  }

  /** One CIGAR unit at the start of `w` is read the same whatever follows `w`. */
  lemma CigarStep(w: string, rest: string)
    requires 0 < Span(w, Digit) < |w| && AlignmentOp(w[Span(w, Digit)])
    ensures var d := Span(w, Digit); CigarLength(w + rest) == d + 1 + CigarLength((w + rest)[d + 1..])
  {
    var d := Span(w, Digit);
    SpanUnaffected(w, rest, Digit);
    assert (w + rest)[d] == w[d];
  }

  lemma NoCigar(rest: string)
    requires rest == [] || !Digit(rest[0])
    ensures CigarLength(rest) == 0
  {
    if rest != [] {
      assert Span(rest, Digit) == 0;
    }
  }

  lemma {:induction false} CigarLengthOf(w: string, rest: string)
    requires IsCigar(w) && (rest == [] || !Digit(rest[0]))
    ensures CigarLength(w + rest) == |w|
    decreases |w|
  {
    var d := Span(w, Digit);
    CigarStep(w, rest);
    SliceAppend(w, rest, d + 1);
    if d + 1 == |w| {
      assert w[d + 1..] + rest == rest;
      NoCigar(rest);
    } else {
      CigarLengthOf(w[d + 1..], rest);
    }
  }

  /** A unit followed by nothing or by more units is a CIGAR string. */
  lemma CigarOfUnit(s: string, d: nat, c: nat)
    requires 0 < d < |s| && All(s[..d], Digit) && AlignmentOp(s[d]) && d + 1 + c <= |s|
    requires c == 0 || IsCigar(s[d + 1..][..c])
    ensures IsCigar(s[..d + 1 + c])
  {
    var w := s[..d + 1 + c];
    assert w == s[..d] + w[d..] && w[d] == s[d];
    SpanOfRun(s[..d], w[d..], Digit);
    assert Span(w, Digit) == d && AlignmentOp(w[d]);
    assert w[d + 1..] == s[d + 1..][..c];
    assert d + 1 == |w| || IsCigar(w[d + 1..]);
  }

  /** The greedy run of CIGAR units is itself a CIGAR string. */
  lemma {:induction false} CigarLengthSound(s: string)
    ensures CigarLength(s) > 0 ==> IsCigar(s[..CigarLength(s)])
    decreases |s|
  {
    var d := Span(s, Digit);
    if 0 < d < |s| && AlignmentOp(s[d]) {
      var c := CigarLength(s[d + 1..]);
      assert CigarLength(s) == d + 1 + c;
      CigarLengthSound(s[d + 1..]);
      CigarOfUnit(s, d, c);
    }
  }

  /** No further CIGAR unit follows the greedy run. */
  lemma {:induction false} CigarLengthMaximal(s: string)
    ensures CigarLength(s[CigarLength(s)..]) == 0
    decreases |s|
  {
    var d := Span(s, Digit);
    if 0 < d < |s| && AlignmentOp(s[d]) {
      CigarLengthMaximal(s[d + 1..]);
      assert s[d + 1..][CigarLength(s[d + 1..])..] == s[CigarLength(s)..];
    } else {
      assert s[CigarLength(s)..] == s;
    }
  }

  lemma ParseCigarOf(w: string, rest: string)
    requires IsCigar(w) && (rest == [] || !Digit(rest[0]))
    ensures ParseAlignment(w + rest) == Done(rest, w)
  {
    CigarLengthOf(w, rest);
    assert (w + rest)[..|w|] == w && (w + rest)[|w|..] == rest;
  }

  /** The language of `^(VN:Z:2.0)`, where `.` is any character but a newline. */
  predicate IsVersion(v: string) { |v| == 8 && v[..6] == "VN:Z:2" && v[6] != '\n' && v[7] == '0' }

  /** Length of `\tTS:i:(\*|[!-~]+)` at the start of `s`, or 0. */
  function TraceSpacingLength(s: string): (n: nat)
    ensures n <= |s|
  {
    if |s| >= 7 && s[..6] == "\tTS:i:" then
      if s[6] == '*' then 7
      else
        var k := Span(s[6..], Printable);
        if k == 0 then 0 else 6 + k
    else 0
  }

  /** The language of `\tTS:i:(\*|[!-~]+)` as its first alternative reads it:
    * `*` alone, or a run of printable characters not starting with `*`. */
  predicate IsTraceSpacing(w: string) { |w| >= 7 && w[..6] == "\tTS:i:" && IsSequence(w[6..]) }

  /** `t` is what the optional `(\tTS:i:(\*|[!-~]+))?` reads of `t + rest`:
    * nothing when no trace spacing follows, otherwise one trace spacing whose
    * run of printable characters goes as far as it can. */
  predicate TraceSpacingRead(t: string, rest: string)
  {
    (t == [] && TraceSpacingLength(rest) == 0)
    || (IsTraceSpacing(t) && (t[6..] == "*" || rest == [] || !Printable(rest[0])))
  }

  /** What `TraceSpacingLength` measures is read as the optional trace spacing. */
  lemma TraceSpacingSound(s: string, n: nat)
    requires n == TraceSpacingLength(s)
    ensures TraceSpacingRead(s[..n], s[n..])
  {
    if n == 0 {
      assert s[..0] == [] && s[0..] == s;
    } else if s[6] == '*' {
      assert s[..n][..6] == s[..6] && s[..n][6..] == "*";
    } else {
      var k := n - 6;
      assert s[..n][..6] == s[..6] && s[..n][6..] == s[6..][..k];
      assert n < |s| ==> s[n] == s[6..][k];
    }
  }

  /** `parse_header_tag`: `^((VN:Z:2.0)?(\tTS:i:(\*|[!-~]+))?)`; never fails.
    * A version at the start is always taken, and then an optional trace
    * spacing. */
  function ParseHeaderTag(input: string): (r: IResult<string>)
    ensures r.Done? && input == r.value + r.rest
    ensures |input| >= 8 && IsVersion(input[..8]) ==> |r.value| >= 8 && r.value[..8] == input[..8]
    ensures |input| >= 8 && IsVersion(input[..8]) ==> TraceSpacingRead(r.value[8..], r.rest)
    ensures !(|input| >= 8 && IsVersion(input[..8])) ==> TraceSpacingRead(r.value, r.rest)
  {
    var v := if |input| >= 8 && IsVersion(input[..8]) then 8 else 0;
    var t := TraceSpacingLength(input[v..]);
    assert input[..v + t][..v] == input[..v];
    TraceSpacingSound(input[v..], t);
    assert input[..v + t][v..] == input[v..][..t] && input[v + t..] == input[v..][t..];
    Done(input[v + t..], input[..v + t])
  }

  lemma ParseHeaderTagOf(v: string, rest: string)
    requires IsVersion(v) && TraceSpacingLength(rest) == 0
    ensures ParseHeaderTag(v + rest) == Done(rest, v)
  {
    assert (v + rest)[..8] == v && (v + rest)[8..] == rest;
  }

  // ---------------------------------------------------------------------
  // Record parsers
  // ---------------------------------------------------------------------

  /** `parse_header`: the header tag, then the tags. */
  function ParseHeader(input: string): (r: IResult<Header>)
    ensures r.Done?
  {
    var version := ParseHeaderTag(input);
    var tags := ParseTags(version.rest);
    Done(tags.rest, Header(version.value, Fields(tags.value)))
  }

  /** `parse_segment`: id, length, sequence, then tags. */
  function ParseSegment(input: string): IResult<Segment>
  {
    var id := Tab(ParseId(input));
    if id.Error? then Error else
    var len := Tab(ParseInt(id.rest));
    if len.Error? then Error else
    var sequence := ParseSequence(len.rest);
    if sequence.Error? then Error else
    var tags := ParseTags(sequence.rest);
    Done(tags.rest, Segment(id.value, len.value, sequence.value, Fields(tags.value)))
  }

  /** The four positions of a fragment or edge line, each followed by a tab. */
  datatype Positions = Positions(p1: string, p2: string, p3: string, p4: string)

  function ParsePositions(input: string): IResult<Positions>
  {
    var a := Tab(ParsePos(input));
    if a.Error? then Error else
    var b := Tab(ParsePos(a.rest));
    if b.Error? then Error else
    var c := Tab(ParsePos(b.rest));
    if c.Error? then Error else
    var d := Tab(ParsePos(c.rest));
    if d.Error? then Error else
    Done(d.rest, Positions(a.value, b.value, c.value, d.value))
  }

  /** `parse_fragment`: id, external reference, four positions, alignment, then tags. */
  function ParseFragment(input: string): IResult<Fragment>
  {
    var id := Tab(ParseId(input));
    if id.Error? then Error else
    var extRef := Tab(ParseRef(id.rest));
    if extRef.Error? then Error else
    var pos := ParsePositions(extRef.rest);
    if pos.Error? then Error else
    var alignment := ParseAlignment(pos.rest);
    if alignment.Error? then Error else
    var tags := ParseTags(alignment.rest);
    var p := pos.value;
    Done(tags.rest, Fragment(id.value, extRef.value, p.p1, p.p2, p.p3, p.p4, alignment.value, Fields(tags.value)))
  }

  /** `parse_edge`: optional id, two references, four positions, alignment, then tags. */
  function ParseEdge(input: string): IResult<Edge>
  {
    var id := Tab(ParseOptId(input));
    if id.Error? then Error else
    var sid1 := Tab(ParseRef(id.rest));
    if sid1.Error? then Error else
    var sid2 := Tab(ParseRef(sid1.rest));
    if sid2.Error? then Error else
    var pos := ParsePositions(sid2.rest);
    if pos.Error? then Error else
    var alignment := ParseAlignment(pos.rest);
    if alignment.Error? then Error else
    var tags := ParseTags(alignment.rest);
    var p := pos.value;
    Done(tags.rest, Edge(id.value, sid1.value, sid2.value, p.p1, p.p2, p.p3, p.p4, alignment.value,
      Fields(tags.value)))
  }

  /** `parse_gap`: optional id, two references, distance, variance, then tags. */
  function ParseGap(input: string): IResult<Gap>
  {
    var id := Tab(ParseOptId(input));
    if id.Error? then Error else
    var sid1 := Tab(ParseRef(id.rest));
    if sid1.Error? then Error else
    var sid2 := Tab(ParseRef(sid1.rest));
    if sid2.Error? then Error else
    var dist := Tab(ParseInt(sid2.rest));
    if dist.Error? then Error else
    var variance := ParseVar(dist.rest);
    if variance.Error? then Error else
    var tags := ParseTags(variance.rest);
    Done(tags.rest, Gap(id.value, sid1.value, sid2.value, dist.value, variance.value, Fields(tags.value)))
  }

  /** The fields shared by both group kinds: the optional id, the members
    * (the id-shaped member field split at spaces) and the tags. */
  datatype GroupFields = GroupFields(id: string, members: seq<string>, tags: seq<string>)

  /** The body of `parse_ogroup` and `parse_ugroup`, which differ only in the
    * record they build. */
  function ParseGroup(input: string): IResult<GroupFields>
  {
    var id := Tab(ParseOptId(input));
    if id.Error? then Error else
    var members := ParseId(id.rest);
    if members.Error? then Error else
    var tags := ParseTags(members.rest);
    Done(tags.rest, GroupFields(id.value, SplitTerminator(members.value, ' '), Fields(tags.value)))
  }

  function ParseGroupO(input: string): (r: IResult<GroupO>)
    ensures r.Done? <==> ParseGroup(input).Done?
  {
    var g := ParseGroup(input);
    if g.Error? then Error else Done(g.rest, GroupO(g.value.id, g.value.members, g.value.tags))
  }

  function ParseGroupU(input: string): (r: IResult<GroupU>)
    ensures r.Done? <==> ParseGroup(input).Done?
  {
    var g := ParseGroup(input);
    if g.Error? then Error else Done(g.rest, GroupU(g.value.id, g.value.members, g.value.tags))
  }

  /** `parse_comment`: `^([ -~]*)`; never fails. */
  function ParseComment(input: string): (r: IResult<string>)
    ensures r.Done? && input == r.value + r.rest && All(r.value, PrintableOrSpace)
    ensures r.rest == [] || !PrintableOrSpace(r.rest[0])
  {
    var n := Span(input, PrintableOrSpace);
    Done(input[n..], input[..n])
  }

  // ---------------------------------------------------------------------
  // Lines and files
  // ---------------------------------------------------------------------

  /** The kind letters of GFA 2.0 records. */
  predicate RecordLetter(c: char)
  {
    c == 'H' || c == 'S' || c == 'F' || c == 'E' || c == 'G' || c == 'O' || c == 'U'
  }

  /** A parser's result as a line of its kind. */
  function AsLine<T>(r: IResult<T>, kind: T -> Line): (t: IResult<Line>)
    ensures t.Done? <==> r.Done?
    ensures t.Done? ==> t.rest == r.rest && t.value == kind(r.value)
  {
    if r.Error? then Error else Done(r.rest, kind(r.value))
  }

  /** The record after `<letter>\t`, read by the parser of that kind. */
  function ParseRecord(letter: char, body: string): IResult<Line>
    requires RecordLetter(letter)
  {
    match letter
    case 'H' => AsLine(ParseHeader(body), h => HeaderLine(h))
    case 'S' => AsLine(ParseSegment(body), s => SegmentLine(s))
    case 'F' => AsLine(ParseFragment(body), f => FragmentLine(f))
    case 'E' => AsLine(ParseEdge(body), e => EdgeLine(e))
    case 'G' => AsLine(ParseGap(body), g => GapLine(g))
    case 'O' => AsLine(ParseGroupO(body), o => GroupOLine(o))
    case _ => AsLine(ParseGroupU(body), u => GroupULine(u))
  }

  /** `parse_line`: record lines need a tab after the letter, comment lines a
    * space after `#`; a line of any other kind is kept whole as a custom
    * record. An empty line makes the source panic, so it is excluded. */
  function ParseLine(line: string): (r: IResult<Line>)
    requires |line| > 0
    ensures !RecordLetter(line[0]) && line[0] != '#' ==> r == Done("", CustomLine(line))
    ensures RecordLetter(line[0]) && r.Done? ==> |line| > 1 && line[1] == '\t'
    ensures line[0] == '#' ==> (r.Done? <==> |line| > 1 && line[1] == ' ')
  {
    if RecordLetter(line[0]) then
      if |line| < 2 || line[1] != '\t' then Error else ParseRecord(line[0], line[2..])
    else if line[0] == '#' then
      if |line| < 2 || line[1] != ' ' then Error
      else
        var c := ParseComment(line[2..]);
        Done(c.rest, CommentLine(c.value))
    else Done("", CustomLine(line))
  }

  /** `parse_gfa`'s loop body: push the line onto the vector of its kind. */
  function AddLine(g: Gfa2, l: Line): Gfa2
  {
    match l
    case HeaderLine(h) => g.(headers := g.headers + [h])
    case SegmentLine(s) => g.(segments := g.segments + [s])
    case FragmentLine(f) => g.(fragments := g.fragments + [f])
    case EdgeLine(e) => g.(edges := g.edges + [e])
    case GapLine(x) => g.(gaps := g.gaps + [x])
    case GroupOLine(o) => g.(groupsO := g.groupsO + [o])
    case GroupULine(u) => g.(groupsU := g.groupsU + [u])
    case CommentLine(c) => g.(comments := g.comments + [c])
    case CustomLine(c) => g.(customRecords := g.customRecords + [c])
  }

  predicate NoEmptyLine(lines: seq<string>) { forall i :: 0 <= i < |lines| ==> |lines[i]| > 0 }

  /** The lines read into `acc`, in file order; `None` as soon as a line fails to parse. */
  function ParseFrom(acc: Gfa2, lines: seq<string>): Option<Gfa2>
    requires NoEmptyLine(lines)
    decreases |lines|
  {
    if lines == [] then Some(acc)
    else
      var p := ParseLine(lines[0]);
      if p.Error? then None else ParseFrom(AddLine(acc, p.value), lines[1..])
  }

  /** `parse_gfa` over the lines of a file (opening and reading the file are not modelled). */
  method ParseGfa(lines: seq<string>) returns (r: Option<Gfa2>)
    requires NoEmptyLine(lines)
    ensures r == ParseFrom(NewGfa2(), lines)
  {
    var gfa := NewGfa2();
    var i := 0;
    while i < |lines|
      invariant 0 <= i <= |lines|
      invariant NoEmptyLine(lines[i..])
      invariant ParseFrom(gfa, lines[i..]) == ParseFrom(NewGfa2(), lines)
    {
      assert lines[i..][1..] == lines[i + 1..];
      var p := ParseLine(lines[i]);
      if p.Error? {
        return None;
      }
      gfa := AddLine(gfa, p.value);
      i := i + 1;
    }
    return Some(gfa);
  }
}
