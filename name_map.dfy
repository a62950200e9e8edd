/** The name interning shared by both versions of `name_conversion.rs`: a
  * dense bijection between record names and the indices `0..n-1`, built in
  * first-occurrence order, and the loops that rewrite a list of records
  * from names to indices and back. */
module NameMap {
  import opened Text

  /** A record of a GFA 2.0 document reduced to what the conversion sees: its
    * id, of type `string` (the name) or `nat` (the index), the other fields
    * in the order `hash_gfa2` feeds them to the hasher, and the tags; the
    * fields and tags are what `nameless_clone` copies unchanged. */
  datatype Rec<N> = Rec(id: N, fields: seq<string>, tags: seq<string>)

  /** A header line: its optional version and its tags. */
  datatype Header = Header(version: Option<string>, tags: seq<string>)

  /** One value handed to the hasher: a byte string, or a header's optional
    * version. */
  datatype Hashed = Bytes(s: string) | Version(v: Option<string>)

  /** The header versions, as `hash_gfa2` feeds them first. */
  function HeadersHashed(hs: seq<Header>): (r: seq<Hashed>)
    ensures |r| == |hs| && forall k :: 0 <= k < |hs| ==> r[k] == Version(hs[k].version)
  {
    seq(|hs|, k requires 0 <= k < |hs| => Version(hs[k].version))
  }

  /** A record as `hash_gfa2` feeds it: its id, then its other fields. */
  function RecHashed(r: Rec<string>): seq<Hashed>
  {
    [Bytes(r.id)] + seq(|r.fields|, k requires 0 <= k < |r.fields| => Bytes(r.fields[k]))
  }

  /** A list of records, one after the other. */
  function RecordsHashed(rs: seq<Rec<string>>): seq<Hashed>
  {
    if rs == [] then [] else RecHashed(rs[0]) + RecordsHashed(rs[1..])
  }

  /** Byte strings handed to the hasher one by one. */
  function TextsHashed(xs: seq<string>): (r: seq<Hashed>)
    ensures |r| == |xs| && forall k :: 0 <= k < |xs| ==> r[k] == Bytes(xs[k])
  {
    seq(|xs|, k requires 0 <= k < |xs| => Bytes(xs[k]))
  }

  /** `NameMap`: the map from names to indices, its inverse vector, and the
    * hash of the document it was built from. */
  datatype NameMap = NameMap(nameMap: map<string, nat>, inverseMap: seq<string>, hash: nat)

  /** `name_map` and `inverse_map` are mutual inverses over `0..n-1`. */
  predicate Valid(nameMap: map<string, nat>, inverseMap: seq<string>)
  {
    |nameMap| == |inverseMap| &&
    (forall k :: 0 <= k < |inverseMap| ==> inverseMap[k] in nameMap && nameMap[inverseMap[k]] == k) &&
    (forall n :: n in nameMap ==> nameMap[n] < |inverseMap| && inverseMap[nameMap[n]] == n)
  }

  /** `map_name`. */
  function MapName(m: NameMap, name: string): (r: Option<nat>)
    ensures r.Some? <==> name in m.nameMap
    ensures r.Some? ==> r.value == m.nameMap[name]
  {
    if name in m.nameMap then Some(m.nameMap[name]) else None
  }

  /** `inverse_map_name`. */
  function InverseMapName(m: NameMap, id: nat): (r: Option<string>)
    ensures r.Some? <==> id < |m.inverseMap|
    ensures r.Some? ==> r.value == m.inverseMap[id]
  {
    if id < |m.inverseMap| then Some(m.inverseMap[id]) else None
  }

  /** On a valid map the two lookups undo each other, in both directions. */
  lemma LookupsInverse(m: NameMap, name: string, id: nat)
    requires Valid(m.nameMap, m.inverseMap)
    ensures MapName(m, name).Some? ==> InverseMapName(m, MapName(m, name).value) == Some(name)
    ensures InverseMapName(m, id).Some? ==>
      MapName(m, InverseMapName(m, id).value) == Some(id)
  {
  }

  // ---------------------------------------------------------------------
  // Interning (`get_ix`)
  // ---------------------------------------------------------------------

  /** The two tables while `build_from_gfa2` fills them. */
  datatype Tables = Tables(names: map<string, nat>, inverse: seq<string>)

  /** `get_ix` on the tables: a known name keeps them; a new one gets the
    * index `name_map.len()` and is pushed on the inverse vector. */
  function Intern(t: Tables, name: string): Tables
  {
    if name in t.names then t
    else Tables(t.names[name := |t.names|], t.inverse + [name])
  }

  /** The tables after interning every name of the list, from the first on. */
  function Interned(names: seq<string>): Tables
    decreases |names|
  {
    if names == [] then Tables(map[], [])
    else Intern(Interned(names[..|names| - 1]), names[|names| - 1])
  }

  /** Interning keeps the tables mutual inverses, and gives the name an index;
    * a name already there keeps its index and no other index changes. */
  lemma InternValid(t: Tables, name: string)
    requires Valid(t.names, t.inverse)
    ensures var u := Intern(t, name);
      Valid(u.names, u.inverse) && name in u.names &&
      (name in t.names ==> u == t) &&
      (name !in t.names ==> u.names[name] == |t.inverse| && u.inverse == t.inverse + [name]) &&
      (forall n :: n in t.names ==> n in u.names && u.names[n] == t.names[n])
  {
    if name !in t.names {
      var u := Intern(t, name);
      assert u.names.Keys == t.names.Keys + {name};
      assert |u.names| == |t.names| + 1;
      forall k | 0 <= k < |u.inverse|
        ensures u.inverse[k] in u.names && u.names[u.inverse[k]] == k
      {
        if k < |t.inverse| {
          assert u.inverse[k] == t.inverse[k];
        }
      }
    }
  }

  /** `get_ix`, updating the tables it closes over. */
  method GetIx(t: Tables, name: string) returns (u: Tables, ix: nat)
    requires Valid(t.names, t.inverse)
    ensures u == Intern(t, name) && name in u.names && ix == u.names[name]
    ensures name in t.names ==> ix == t.names[name]
    ensures name !in t.names ==> ix == |t.inverse|
  {
    InternValid(t, name);
    if name in t.names {
      u := t;
      ix := t.names[name];
    } else {
      ix := |t.names|;
      u := Tables(t.names[name := ix], t.inverse + [name]);
    }
  }

  /** What interning a list of names builds: a bijection between the
    * distinct names of the list and `0..n-1`. */
  lemma {:induction false} InternedFacts(names: seq<string>)
    ensures var t := Interned(names);
      Valid(t.names, t.inverse) && |t.inverse| <= |names| &&
      (forall i :: 0 <= i < |names| ==> names[i] in t.names) &&
      (forall n :: n in t.names ==> n in names)
    decreases |names|
  {
    if names != [] {
      var init := names[..|names| - 1];
      var last := names[|names| - 1];
      InternedFacts(init);
      var t0 := Interned(init);
      InternValid(t0, last);
      var t := Interned(names);
      assert t == Intern(t0, last);
      forall i | 0 <= i < |names|
        ensures names[i] in t.names
      {
        if i < |init| {
          assert names[i] == init[i] && init[i] in t0.names;
        } else {
          assert names[i] == last;
        }
      }
      forall n | n in t.names
        ensures n in names
      {
        if n in t0.names { var i :| 0 <= i < |init| && init[i] == n; assert names[i] == n; }
      }
    }
  }

  /** The order of the indices: a name first seen after another gets the
    * larger index. */
  lemma {:induction false} InternedOrder(names: seq<string>)
    ensures var t := Interned(names);
      forall i, j :: 0 <= i < j < |names| && names[j] !in names[..j] ==>
        names[i] in t.names && names[j] in t.names && t.names[names[i]] < t.names[names[j]]
    decreases |names|
  {
    InternedFacts(names);
    if names != [] {
      var init := names[..|names| - 1];
      var last := names[|names| - 1];
      InternedOrder(init);
      InternedFacts(init);
      var t0 := Interned(init);
      InternValid(t0, last);
      var t := Interned(names);
      assert t == Intern(t0, last);
      forall i, j | 0 <= i < j < |names| && names[j] !in names[..j]
        ensures t.names[names[i]] < t.names[names[j]]
      {
        assert names[i] == init[i];
        if j < |init| {
          assert names[j] == init[j] && names[..j] == init[..j];
        } else {
          assert names[..j] == init;
          assert last !in t0.names;
        }
      }
    }
  }

  /** Interning a list one name after another: the tables of a prefix, then
    * the next name. */
  lemma InternedStep(done: seq<string>, ids: seq<string>, i: nat)
    requires i < |ids|
    ensures Interned(done + ids[..i + 1]) == Intern(Interned(done + ids[..i]), ids[i])
  {
    var names := done + ids[..i + 1];
    assert names[..|names| - 1] == done + ids[..i];
    assert names[|names| - 1] == ids[i];
  }

  /** The interning loop over one list of records, as `build_from_gfa2` runs
    * it once per record kind. */
  method InternAll(t: Tables, ghost done: seq<string>, ids: seq<string>) returns (u: Tables)
    requires t == Interned(done)
    ensures u == Interned(done + ids)
  {
    u := t;
    var i := 0;
    assert done + ids[..0] == done;
    while i < |ids|
      invariant 0 <= i <= |ids|
      invariant u == Interned(done + ids[..i])
    {
      InternedFacts(done + ids[..i]);
      InternedStep(done, ids, i);
      var ix;
      u, ix := GetIx(u, ids[i]);
      i := i + 1;
    }
    assert ids[..i] == ids;
  }

  /** The ids of a list of records, in order. */
  function Ids<N>(rs: seq<Rec<N>>): (ids: seq<N>)
    ensures |ids| == |rs| && forall k :: 0 <= k < |rs| ==> ids[k] == rs[k].id
  {
    seq(|rs|, k requires 0 <= k < |rs| => rs[k].id)
  }

  // ---------------------------------------------------------------------
  // Rewriting the ids of a list of records
  // ---------------------------------------------------------------------

  /** The loop `for r in list { let id = map_name(&r.id)?; ... push }`: `None`
    * as soon as one name is unknown, else every record with its index. */
  function MapRecords(nameMap: map<string, nat>, rs: seq<Rec<string>>): (r: Option<seq<Rec<nat>>>)
    ensures r.Some? <==> forall k :: 0 <= k < |rs| ==> rs[k].id in nameMap
    ensures r.Some? ==> (|r.value| == |rs| &&
      forall k :: 0 <= k < |rs| ==> r.value[k] == Rec(nameMap[rs[k].id], rs[k].fields, rs[k].tags))
  {
    if forall k :: 0 <= k < |rs| ==> rs[k].id in nameMap then
      Some(seq(|rs|, k requires 0 <= k < |rs| => Rec(nameMap[rs[k].id], rs[k].fields, rs[k].tags)))
    else None
  }

  /** The loop `for r in list { let id = inverse_map_name(r.id)?; ... push }`. */
  function UnmapRecords(inverseMap: seq<string>, rs: seq<Rec<nat>>): (r: Option<seq<Rec<string>>>)
    ensures r.Some? <==> forall k :: 0 <= k < |rs| ==> rs[k].id < |inverseMap|
    ensures r.Some? ==> (|r.value| == |rs| &&
      forall k :: 0 <= k < |rs| ==> r.value[k] == Rec(inverseMap[rs[k].id], rs[k].fields, rs[k].tags))
  {
    if forall k :: 0 <= k < |rs| ==> rs[k].id < |inverseMap| then
      Some(seq(|rs|, k requires 0 <= k < |rs| => Rec(inverseMap[rs[k].id], rs[k].fields, rs[k].tags)))
    else None
  }

  /** Mapping names to indices and back gives the records back. */
  lemma RecordsRoundTrip(nameMap: map<string, nat>, inverseMap: seq<string>, rs: seq<Rec<string>>)
    requires Valid(nameMap, inverseMap)
    requires forall k :: 0 <= k < |rs| ==> rs[k].id in nameMap
    ensures MapRecords(nameMap, rs).Some?
    ensures UnmapRecords(inverseMap, MapRecords(nameMap, rs).value) == Some(rs)
  {
    var mapped := MapRecords(nameMap, rs).value;
    var back := UnmapRecords(inverseMap, mapped);
    assert back.Some?;
    assert back.value == rs;
  }

  /** Mapping indices to names and back gives the records back. */
  lemma IndicesRoundTrip(nameMap: map<string, nat>, inverseMap: seq<string>, rs: seq<Rec<nat>>)
    requires Valid(nameMap, inverseMap)
    requires forall k :: 0 <= k < |rs| ==> rs[k].id < |inverseMap|
    ensures UnmapRecords(inverseMap, rs).Some?
    ensures MapRecords(nameMap, UnmapRecords(inverseMap, rs).value) == Some(rs)
  {
    var named := UnmapRecords(inverseMap, rs).value;
    var back := MapRecords(nameMap, named);
    assert back.Some?;
    assert back.value == rs;
  }

  /** The loop that maps one record list, returning early on an unknown name. */
  method MapRecordsLoop(m: NameMap, rs: seq<Rec<string>>) returns (r: Option<seq<Rec<nat>>>)
    ensures r == MapRecords(m.nameMap, rs)
  {
    var out: seq<Rec<nat>> := [];
    var i := 0;
    while i < |rs|
      invariant 0 <= i <= |rs| && |out| == i
      invariant forall k :: 0 <= k < i ==> rs[k].id in m.nameMap && out[k] == Rec(m.nameMap[rs[k].id], rs[k].fields, rs[k].tags)
    {
      var id := MapName(m, rs[i].id);
      if id.None? {
        return None;
      }
      out := out + [Rec(id.value, rs[i].fields, rs[i].tags)];
      i := i + 1;
    }
    r := Some(out);
    assert r.value == MapRecords(m.nameMap, rs).value;
  }

  /** The loop that maps one record list back, returning early on an index
    * out of range. */
  method UnmapRecordsLoop(m: NameMap, rs: seq<Rec<nat>>) returns (r: Option<seq<Rec<string>>>)
    ensures r == UnmapRecords(m.inverseMap, rs)
  {
    var out: seq<Rec<string>> := [];
    var i := 0;
    while i < |rs|
      invariant 0 <= i <= |rs| && |out| == i
      invariant forall k :: 0 <= k < i ==> rs[k].id < |m.inverseMap| && out[k] == Rec(m.inverseMap[rs[k].id], rs[k].fields, rs[k].tags)
    {
      var name := InverseMapName(m, rs[i].id);
      if name.None? {
        return None;
      }
      out := out + [Rec(name.value, rs[i].fields, rs[i].tags)];
      i := i + 1;
    }
    r := Some(out);
    assert r.value == UnmapRecords(m.inverseMap, rs).value;
  }

  // ---------------------------------------------------------------------
  // `NameMapString`, the text form saved as JSON
  // ---------------------------------------------------------------------

  /** `NameMapString`: the same tables with `String` keys. Every string of
    * the model is already text, so the conversions copy. */
  datatype NameMapString = NameMapString(nameMap: map<string, nat>, inverseMap: seq<string>, hash: nat)

  /** `NameMapString::from_name_map`. */
  function FromNameMap(m: NameMap): (s: NameMapString)
    ensures s.nameMap == m.nameMap && s.inverseMap == m.inverseMap && s.hash == m.hash
  {
    NameMapString(m.nameMap, m.inverseMap, m.hash)
  }

  /** `NameMapString::into_name_map`. */
  function IntoNameMap(s: NameMapString): (m: NameMap)
    ensures m.nameMap == s.nameMap && m.inverseMap == s.inverseMap && m.hash == s.hash
  {
    NameMap(s.nameMap, s.inverseMap, s.hash)
  }

  /** Saving a map as text and loading it again gives the same map. */
  lemma TextRoundTrip(m: NameMap)
    ensures IntoNameMap(FromNameMap(m)) == m
  {
  }
}
