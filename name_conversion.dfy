/** `NameMap` of `rs-gfa2/src/gfa2/name_conversion.rs`: interning the ids of
  * every record kind, groups included, and converting a whole GFA 2.0
  * document between names and indices; comments and custom records ride
  * along unchanged. */
module NameConversion {
  import opened Text
  import opened NameMap

  /** `GFA2<N, T>`, every record reduced to its id and the fields around it. */
  datatype Doc<N> = Doc(
    headers: seq<Header>,
    segments: seq<Rec<N>>,
    fragments: seq<Rec<N>>,
    edges: seq<Rec<N>>,
    gaps: seq<Rec<N>>,
    groupsO: seq<Rec<N>>,
    groupsU: seq<Rec<N>>,
    comments: seq<string>,
    customRecords: seq<string>)

  /** What `hash_gfa2` feeds its hasher, in order. */
  function HashInput(d: Doc<string>): seq<Hashed>
  {
    HeadersHashed(d.headers) + RecordsHashed(d.segments) + RecordsHashed(d.fragments) +
    RecordsHashed(d.edges) + RecordsHashed(d.gaps) + RecordsHashed(d.groupsO) +
    RecordsHashed(d.groupsU) + TextsHashed(d.comments) + TextsHashed(d.customRecords)
  }

  /** The ids `build_from_gfa2` interns, in the order it visits them. */
  function AllIds<N>(d: Doc<N>): seq<N>
  {
    Ids(d.segments) + Ids(d.fragments) + Ids(d.edges) + Ids(d.gaps) + Ids(d.groupsO) + Ids(d.groupsU)
  }

  /** Every id of a record list is a key of the name map. */
  predicate Mapped(nameMap: map<string, nat>, rs: seq<Rec<string>>)
  {
    forall k :: 0 <= k < |rs| ==> rs[k].id in nameMap
  }

  /** Every id of the document is a key of the name map. */
  predicate AllMapped(nameMap: map<string, nat>, d: Doc<string>)
  {
    Mapped(nameMap, d.segments) && Mapped(nameMap, d.fragments) && Mapped(nameMap, d.edges) &&
    Mapped(nameMap, d.gaps) && Mapped(nameMap, d.groupsO) && Mapped(nameMap, d.groupsU)
  }

  /** Every index of a record list is below `n`. */
  predicate InRange(n: nat, rs: seq<Rec<nat>>)
  {
    forall k :: 0 <= k < |rs| ==> rs[k].id < n
  }

  /** Every index of the document is below `n`. */
  predicate AllInRange(n: nat, d: Doc<nat>)
  {
    InRange(n, d.segments) && InRange(n, d.fragments) && InRange(n, d.edges) &&
    InRange(n, d.gaps) && InRange(n, d.groupsO) && InRange(n, d.groupsU)
  }

  /** The map `build_from_gfa2` returns for a document, with `hasher`
    * standing for `DefaultHasher`. */
  function Built(d: Doc<string>, hasher: seq<Hashed> -> nat): NameMap
  {
    var t := Interned(AllIds(d));
    NameMap(t.names, t.inverse, hasher(HashInput(d)))
  }

  /** The built map is a bijection between the distinct ids of the document
    * and `0..n-1`, numbered in first-occurrence order, and it stores the
    * document's hash. */
  lemma BuiltFacts(d: Doc<string>, hasher: seq<Hashed> -> nat)
    ensures var m := Built(d, hasher); var ids := AllIds(d);
      Valid(m.nameMap, m.inverseMap) && m.hash == hasher(HashInput(d)) &&
      (forall n :: n in m.nameMap <==> n in ids) &&
      (forall i, j :: 0 <= i < j < |ids| && ids[j] !in ids[..j] ==>
         m.nameMap[ids[i]] < m.nameMap[ids[j]])
  {
    InternedFacts(AllIds(d));
    InternedOrder(AllIds(d));
    var ids := AllIds(d);
    var t := Interned(ids);
    forall n | n in ids
      ensures n in t.names
    {
      var i :| 0 <= i < |ids| && ids[i] == n;
    }
  }

  /** `build_from_gfa2`: the interning loops over segments, fragments, edges,
    * gaps, O-groups and U-groups, in that order. */
  method BuildFromGfa2(d: Doc<string>, hasher: seq<Hashed> -> nat) returns (m: NameMap)
    ensures m == Built(d, hasher)
  {
    var hash := hasher(HashInput(d));
    var t := Tables(map[], []);
    ghost var s, f, e, g, o := Ids(d.segments), Ids(d.fragments), Ids(d.edges), Ids(d.gaps), Ids(d.groupsO);
    assert [] + s == s;
    t := InternAll(t, [], Ids(d.segments));
    t := InternAll(t, s, Ids(d.fragments));
    t := InternAll(t, s + f, Ids(d.edges));
    t := InternAll(t, s + f + e, Ids(d.gaps));
    t := InternAll(t, s + f + e + g, Ids(d.groupsO));
    t := InternAll(t, s + f + e + g + o, Ids(d.groupsU));
    m := NameMap(t.names, t.inverse, hash);
  }

  /** `gfa_bstring_to_usize`: `None` on a hash mismatch when asked to check,
    * `None` when an id of any record list is not in the map, and otherwise
    * the document with every id replaced by its index. */
  function ToUsize(m: NameMap, d: Doc<string>, checkHash: bool, hasher: seq<Hashed> -> nat): (r: Option<Doc<nat>>)
    ensures checkHash && hasher(HashInput(d)) != m.hash ==> r.None?
    ensures r.Some? <==> (!checkHash || hasher(HashInput(d)) == m.hash) && AllMapped(m.nameMap, d)
    ensures r.Some? ==>
      r.value.headers == d.headers && r.value.comments == d.comments &&
      r.value.customRecords == d.customRecords &&
      Some(r.value.segments) == MapRecords(m.nameMap, d.segments) &&
      Some(r.value.fragments) == MapRecords(m.nameMap, d.fragments) &&
      Some(r.value.edges) == MapRecords(m.nameMap, d.edges) &&
      Some(r.value.gaps) == MapRecords(m.nameMap, d.gaps) &&
      Some(r.value.groupsO) == MapRecords(m.nameMap, d.groupsO) &&
      Some(r.value.groupsU) == MapRecords(m.nameMap, d.groupsU)
  {
    if checkHash && hasher(HashInput(d)) != m.hash then None
    else
      var s := MapRecords(m.nameMap, d.segments);
      var f := MapRecords(m.nameMap, d.fragments);
      var e := MapRecords(m.nameMap, d.edges);
      var g := MapRecords(m.nameMap, d.gaps);
      var o := MapRecords(m.nameMap, d.groupsO);
      var u := MapRecords(m.nameMap, d.groupsU);
      if s.Some? && f.Some? && e.Some? && g.Some? && o.Some? && u.Some? then
        Some(Doc(d.headers, s.value, f.value, e.value, g.value, o.value, u.value, d.comments, d.customRecords))
      else None
  }

  /** `gfa_usize_to_bstring`: `None` when an index of any record list is out
    * of range, and otherwise the document with every index replaced by its
    * name. */
  function ToBString(m: NameMap, d: Doc<nat>): (r: Option<Doc<string>>)
    ensures r.Some? ==>
      r.value.headers == d.headers && r.value.comments == d.comments &&
      r.value.customRecords == d.customRecords &&
      Some(r.value.segments) == UnmapRecords(m.inverseMap, d.segments) &&
      Some(r.value.fragments) == UnmapRecords(m.inverseMap, d.fragments) &&
      Some(r.value.edges) == UnmapRecords(m.inverseMap, d.edges) &&
      Some(r.value.gaps) == UnmapRecords(m.inverseMap, d.gaps) &&
      Some(r.value.groupsO) == UnmapRecords(m.inverseMap, d.groupsO) &&
      Some(r.value.groupsU) == UnmapRecords(m.inverseMap, d.groupsU)
    ensures r.Some? <==> AllInRange(|m.inverseMap|, d)
  {
    var s := UnmapRecords(m.inverseMap, d.segments);
    var f := UnmapRecords(m.inverseMap, d.fragments);
    var e := UnmapRecords(m.inverseMap, d.edges);
    var g := UnmapRecords(m.inverseMap, d.gaps);
    var o := UnmapRecords(m.inverseMap, d.groupsO);
    var u := UnmapRecords(m.inverseMap, d.groupsU);
    if s.Some? && f.Some? && e.Some? && g.Some? && o.Some? && u.Some? then
      Some(Doc(d.headers, s.value, f.value, e.value, g.value, o.value, u.value, d.comments, d.customRecords))
    else None
  }

  /** `gfa_bstring_to_usize` as written: the hash check, then one loop per
    * record list, each returning `None` at the first unknown name. */
  method GfaBStringToUsize(m: NameMap, d: Doc<string>, checkHash: bool, hasher: seq<Hashed> -> nat)
    returns (r: Option<Doc<nat>>)
    ensures r == ToUsize(m, d, checkHash, hasher)
  {
    if checkHash && hasher(HashInput(d)) != m.hash {
      return None;
    }
    var s := MapRecordsLoop(m, d.segments);
    if s.None? { return None; }
    var f := MapRecordsLoop(m, d.fragments);
    if f.None? { return None; }
    var e := MapRecordsLoop(m, d.edges);
    if e.None? { return None; }
    var g := MapRecordsLoop(m, d.gaps);
    if g.None? { return None; }
    var o := MapRecordsLoop(m, d.groupsO);
    if o.None? { return None; }
    var u := MapRecordsLoop(m, d.groupsU);
    if u.None? { return None; }
    r := Some(Doc(d.headers, s.value, f.value, e.value, g.value, o.value, u.value, d.comments, d.customRecords));
  }

  /** `gfa_usize_to_bstring` as written: one loop per record list, each
    * returning `None` at the first index out of range. */
  method GfaUsizeToBString(m: NameMap, d: Doc<nat>) returns (r: Option<Doc<string>>)
    ensures r == ToBString(m, d)
  {
    var s := UnmapRecordsLoop(m, d.segments);
    if s.None? { return None; }
    var f := UnmapRecordsLoop(m, d.fragments);
    if f.None? { return None; }
    var e := UnmapRecordsLoop(m, d.edges);
    if e.None? { return None; }
    var g := UnmapRecordsLoop(m, d.gaps);
    if g.None? { return None; }
    var o := UnmapRecordsLoop(m, d.groupsO);
    if o.None? { return None; }
    var u := UnmapRecordsLoop(m, d.groupsU);
    if u.None? { return None; }
    r := Some(Doc(d.headers, s.value, f.value, e.value, g.value, o.value, u.value, d.comments, d.customRecords));
  }

  /** Every id of a record list that `build_from_gfa2` visited is in the map. */
  lemma ListMapped(nameMap: map<string, nat>, ids: seq<string>, rs: seq<Rec<string>>)
    requires forall n :: n in ids ==> n in nameMap
    requires forall k :: 0 <= k < |rs| ==> rs[k].id in ids
    ensures Mapped(nameMap, rs)
  {
  }

  /** The map built from a document covers every id of it. */
  lemma BuiltMapsAll(d: Doc<string>, hasher: seq<Hashed> -> nat)
    ensures AllMapped(Built(d, hasher).nameMap, d)
  {
    BuiltFacts(d, hasher);
    var nm := Built(d, hasher).nameMap;
    var ids := AllIds(d);
    ListMapped(nm, ids, d.segments);
    ListMapped(nm, ids, d.fragments);
    ListMapped(nm, ids, d.edges);
    ListMapped(nm, ids, d.gaps);
    ListMapped(nm, ids, d.groupsO);
    ListMapped(nm, ids, d.groupsU);
  }

  /** Converting the document a map was built from to indices succeeds,
    * whether or not the hash is checked, and converting back gives the
    * document again. */
  lemma BuiltRoundTrip(d: Doc<string>, hasher: seq<Hashed> -> nat, checkHash: bool)
    ensures var m := Built(d, hasher);
      ToUsize(m, d, checkHash, hasher).Some? &&
      ToBString(m, ToUsize(m, d, checkHash, hasher).value) == Some(d)
  {
    var m := Built(d, hasher);
    BuiltFacts(d, hasher);
    BuiltMapsAll(d, hasher);
    var x := ToUsize(m, d, checkHash, hasher).value;
    RecordsRoundTrip(m.nameMap, m.inverseMap, d.segments);
    RecordsRoundTrip(m.nameMap, m.inverseMap, d.fragments);
    RecordsRoundTrip(m.nameMap, m.inverseMap, d.edges);
    RecordsRoundTrip(m.nameMap, m.inverseMap, d.gaps);
    RecordsRoundTrip(m.nameMap, m.inverseMap, d.groupsO);
    RecordsRoundTrip(m.nameMap, m.inverseMap, d.groupsU);
  }

  /** Converting an indexed document whose indices are all in range to names
    * and back gives it again. */
  lemma IndexedRoundTrip(m: NameMap, d: Doc<nat>, hasher: seq<Hashed> -> nat)
    requires Valid(m.nameMap, m.inverseMap) && AllInRange(|m.inverseMap|, d)
    ensures ToBString(m, d).Some? && ToUsize(m, ToBString(m, d).value, false, hasher) == Some(d)
  {
    IndicesRoundTrip(m.nameMap, m.inverseMap, d.segments);
    IndicesRoundTrip(m.nameMap, m.inverseMap, d.fragments);
    IndicesRoundTrip(m.nameMap, m.inverseMap, d.edges);
    IndicesRoundTrip(m.nameMap, m.inverseMap, d.gaps);
    IndicesRoundTrip(m.nameMap, m.inverseMap, d.groupsO);
    IndicesRoundTrip(m.nameMap, m.inverseMap, d.groupsU);
  }

  /** A stale map is refused when the hash is checked: converting a document
    * whose hash differs from the stored one gives `None`. */
  lemma StaleMapRefused(d: Doc<string>, other: Doc<string>, hasher: seq<Hashed> -> nat)
    requires hasher(HashInput(other)) != hasher(HashInput(d))
    ensures ToUsize(Built(d, hasher), other, true, hasher).None?
  {
  }
}
