/** `NameMap` of `src/gfa2/name_conversion.rs`, the earlier form: only
  * segment, fragment, edge and gap ids are interned, and a group keeps its
  * own id but has its member list rewritten, member by member. */
module AppNameConversion {
  import opened Text
  import opened NameMap

  /** An O- or U-group: its id, kept as a name in both forms, its member
    * field (space-separated members) and its tags. */
  datatype Group = Group(id: string, varField: string, tags: seq<string>)

  /** `GFA2<N, T>` of the earlier crate, which has no comments or custom
    * records. */
  datatype Doc<N> = Doc(
    headers: seq<Header>,
    segments: seq<Rec<N>>,
    fragments: seq<Rec<N>>,
    edges: seq<Rec<N>>,
    gaps: seq<Rec<N>>,
    groupsO: seq<Group>,
    groupsU: seq<Group>)

  /** A list of groups as `hash_gfa2` feeds them: id, then member field. */
  function GroupsHashed(gs: seq<Group>): seq<Hashed>
  {
    if gs == [] then [] else [Bytes(gs[0].id), Bytes(gs[0].varField)] + GroupsHashed(gs[1..])
  }

  /** What `hash_gfa2` feeds its hasher, in order. */
  function HashInput(d: Doc<string>): seq<Hashed>
  {
    HeadersHashed(d.headers) + RecordsHashed(d.segments) + RecordsHashed(d.fragments) +
    RecordsHashed(d.edges) + RecordsHashed(d.gaps) + GroupsHashed(d.groupsO) + GroupsHashed(d.groupsU)
  }

  /** The ids `build_from_gfa2` interns, in the order it visits them: no
    * group ids. */
  function AllIds<N>(d: Doc<N>): seq<N>
  {
    Ids(d.segments) + Ids(d.fragments) + Ids(d.edges) + Ids(d.gaps)
  }

  /** The map `build_from_gfa2` returns, with `hasher` standing for
    * `DefaultHasher`. */
  function Built(d: Doc<string>, hasher: seq<Hashed> -> nat): NameMap
  {
    var t := Interned(AllIds(d));
    NameMap(t.names, t.inverse, hasher(HashInput(d)))
  }

  /** The built map is a bijection between the distinct segment, fragment,
    * edge and gap ids and `0..n-1`, in first-occurrence order. */
  lemma BuiltFacts(d: Doc<string>, hasher: seq<Hashed> -> nat)
    ensures var m := Built(d, hasher); var ids := AllIds(d);
      Valid(m.nameMap, m.inverseMap) && m.hash == hasher(HashInput(d)) &&
      (forall n :: n in m.nameMap <==> n in ids) &&
      (forall i, j :: 0 <= i < j < |ids| && ids[j] !in ids[..j] ==>
         m.nameMap[ids[i]] < m.nameMap[ids[j]])
  {
    InternedFacts(AllIds(d));
    InternedOrder(AllIds(d));
    var ids := AllIds(d);
    var t := Interned(ids);
    forall n | n in ids
      ensures n in t.names
    {
      var i :| 0 <= i < |ids| && ids[i] == n;
    }
  }

  /** `build_from_gfa2`: the interning loops over segments, fragments, edges
    * and gaps, in that order. */
  method BuildFromGfa2(d: Doc<string>, hasher: seq<Hashed> -> nat) returns (m: NameMap)
    ensures m == Built(d, hasher)
  {
    var hash := hasher(HashInput(d));
    var t := Tables(map[], []);
    ghost var s, f, e := Ids(d.segments), Ids(d.fragments), Ids(d.edges);
    assert [] + s == s;
    t := InternAll(t, [], Ids(d.segments));
    t := InternAll(t, s, Ids(d.fragments));
    t := InternAll(t, s + f, Ids(d.edges));
    t := InternAll(t, s + f + e, Ids(d.gaps));
    m := NameMap(t.names, t.inverse, hash);
  }

  // ---------------------------------------------------------------------
  // Group members
  // ---------------------------------------------------------------------

  /** The members of a group's field, as `iter` yields them: its
    * space-separated non-empty tokens. */
  function Tokens(varField: string): (ts: seq<string>)
    ensures forall k :: 0 <= k < |ts| ==> ts[k] != "" && ' ' !in ts[k]
  {
    var ts := NonEmpty(Split(varField, ' '));
    assert forall k :: 0 <= k < |ts| ==> ts[k] in Split(varField, ' ');
    ts
  }

  /** A member field in the form the conversions write: its tokens joined by
    * single spaces, without a leading or trailing space. */
  predicate Canonical(varField: string)
  {
    Joined(Tokens(varField), " ") == varField
  }

  /** The four member rewritings, each with the table it looks members up in. */
  datatype Direction =
    | MapO(nameMap: map<string, nat>)
    | UnmapO(inverseMap: seq<string>)
    | MapU(nameMap: map<string, nat>)
    | UnmapU(inverseMap: seq<string>)

  /** One member rewritten, or `None` (a miss). An O-group member is an id
    * followed by its orientation character, which is carried over; a
    * U-group member is a bare id. An index is read back with `parse`. */
  function Piece(dir: Direction, t: string): Option<string>
  {
    match dir
    case MapO(nm) =>
      if |t| == 0 then None
      else
        var name := t[..|t| - 1];
        if name in nm then Some(NatToString(nm[name]) + [t[|t| - 1]]) else None
    case UnmapO(inv) =>
      if |t| == 0 then None
      else
        var ix := ParseU64(t[..|t| - 1]);
        if ix.Some? && ix.value < |inv| then Some(inv[ix.value] + [t[|t| - 1]]) else None
    case MapU(nm) =>
      if t in nm then Some(NatToString(nm[t])) else None
    case UnmapU(inv) =>
      var ix := ParseU64(t);
      if ix.Some? && ix.value < |inv| then Some(inv[ix.value]) else None
  }

  /** Every member rewritten, in order, or `None` when any one misses. */
  function Pieces(dir: Direction, ts: seq<string>): (r: Option<seq<string>>)
    ensures r.Some? <==> forall k :: 0 <= k < |ts| ==> Piece(dir, ts[k]).Some?
    ensures r.Some? ==> (|r.value| == |ts| &&
      forall k :: 0 <= k < |ts| ==> Piece(dir, ts[k]) == Some(r.value[k]))
  {
    if forall k :: 0 <= k < |ts| ==> Piece(dir, ts[k]).Some? then
      Some(seq(|ts|, k requires 0 <= k < |ts| => match Piece(dir, ts[k]) case Some(p) => p case None => ""))
    else None
  }

  /** The rewritten members, each one after a space but the first: what the
    * `filter_map`, `enumerate`, `flat_map` chain collects when nothing
    * missed. */
  function ConvertGroup(dir: Direction, g: Group): (r: Option<Group>)
    ensures r.Some? <==> Pieces(dir, Tokens(g.varField)).Some?
    ensures r.Some? ==> (r.value.id == g.id && r.value.tags == g.tags &&
      r.value.varField == Joined(Pieces(dir, Tokens(g.varField)).value, " "))
  {
    var ps := Pieces(dir, Tokens(g.varField));
    if ps.Some? then Some(Group(g.id, Joined(ps.value, " "), g.tags)) else None
  }

  /** The member loop: looks each member up, counts the misses, and writes
    * every hit, with a space before all but the first hit. */
  method RenderMembers(dir: Direction, ts: seq<string>) returns (text: string, misses: nat)
    ensures misses == 0 <==> Pieces(dir, ts).Some?
    ensures misses == 0 ==> text == Joined(Pieces(dir, ts).value, " ")
  {
    text := "";
    misses := 0;
    var found := 0;
    ghost var hits: seq<string> := [];
    ghost var miss := 0;
    var i := 0;
    while i < |ts|
      invariant 0 <= i <= |ts| && |hits| == found
      invariant text == Joined(hits, " ")
      invariant misses > 0 ==> miss < i && Piece(dir, ts[miss]).None?
      invariant misses == 0 ==> |hits| == i && forall k :: 0 <= k < i ==> Piece(dir, ts[k]) == Some(hits[k])
    {
      var p := Piece(dir, ts[i]);
      if p.None? {
        if misses == 0 {
          miss := i;
        }
        misses := misses + 1;
      } else {
        text := AppendHit(text, hits, p.value, found == 0);
        if misses == 0 {
          HitStep(dir, ts, hits, i, p.value);
        }
        hits := hits + [p.value];
        found := found + 1;
      }
      i := i + 1;
    }
    if misses == 0 {
      PiecesOfHits(dir, ts, hits);
    } else {
      PiecesMissed(dir, ts, miss);
    }
  }

  /** One more member rewritten, after the ones before it. */
  lemma HitStep(dir: Direction, ts: seq<string>, hits: seq<string>, i: nat, p: string)
    requires i < |ts| && |hits| == i && Piece(dir, ts[i]) == Some(p)
    requires forall k :: 0 <= k < i ==> Piece(dir, ts[k]) == Some(hits[k])
    ensures forall k :: 0 <= k < i + 1 ==> Piece(dir, ts[k]) == Some((hits + [p])[k])
  {
    forall k | 0 <= k < i + 1
      ensures Piece(dir, ts[k]) == Some((hits + [p])[k])
    {
      if k < i {
        assert (hits + [p])[k] == hits[k];
      }
    }
  }

  /** When every member was rewritten, the rewritten members are `Pieces`. */
  lemma PiecesOfHits(dir: Direction, ts: seq<string>, hits: seq<string>)
    requires |hits| == |ts| && forall k :: 0 <= k < |ts| ==> Piece(dir, ts[k]) == Some(hits[k])
    ensures Pieces(dir, ts) == Some(hits)
  {
    assert Pieces(dir, ts).value == hits;
  }

  /** One member that misses makes `Pieces` miss. */
  lemma PiecesMissed(dir: Direction, ts: seq<string>, miss: nat)
    requires miss < |ts| && Piece(dir, ts[miss]).None?
    ensures Pieces(dir, ts).None?
  {
  }

  /** One hit written after the others: alone when it is the first, after a
    * space otherwise. */
  function AppendHit(text: string, ghost hits: seq<string>, p: string, first: bool): (r: string)
    requires text == Joined(hits, " ") && first == (|hits| == 0)
    ensures r == Joined(hits + [p], " ")
  {
    JoinedSnoc(hits, p, " ");
    if first then p else text + " " + p
  }

  /** `map_ogroup_segments`: each member name to its index, keeping its
    * orientation; `None` if any member is not in the map. */
  method MapOgroupSegments(m: NameMap, g: Group) returns (r: Option<Group>)
    ensures r == ConvertGroup(MapO(m.nameMap), g)
  {
    var text, misses := RenderMembers(MapO(m.nameMap), Tokens(g.varField));
    if misses > 0 {
      return None;
    }
    r := Some(Group(g.id, text, g.tags));
  }

  /** `inverse_map_ogroup_segments`: each member index to its name, keeping
    * its orientation; `None` if any index is out of range. */
  method InverseMapOgroupSegments(m: NameMap, g: Group) returns (r: Option<Group>)
    ensures r == ConvertGroup(UnmapO(m.inverseMap), g)
  {
    var text, misses := RenderMembers(UnmapO(m.inverseMap), Tokens(g.varField));
    if misses > 0 {
      return None;
    }
    r := Some(Group(g.id, text, g.tags));
  }

  /** `map_ugroup_segments`. */
  method MapUgroupSegments(m: NameMap, g: Group) returns (r: Option<Group>)
    ensures r == ConvertGroup(MapU(m.nameMap), g)
  {
    var text, misses := RenderMembers(MapU(m.nameMap), Tokens(g.varField));
    if misses > 0 {
      return None;
    }
    r := Some(Group(g.id, text, g.tags));
  }

  /** `inverse_map_ugroup_segments`. */
  method InverseMapUgroupSegments(m: NameMap, g: Group) returns (r: Option<Group>)
    ensures r == ConvertGroup(UnmapU(m.inverseMap), g)
  {
    var text, misses := RenderMembers(UnmapU(m.inverseMap), Tokens(g.varField));
    if misses > 0 {
      return None;
    }
    r := Some(Group(g.id, text, g.tags));
  }

  /** Members joined by single spaces are read back as the same members. */
  lemma TokensOfJoined(ps: seq<string>)
    requires NoneEmpty(ps) && NoneContains(ps, ' ')
    ensures Tokens(Joined(ps, " ")) == ps
  {
    if ps == [] {
      assert Split("", ' ') == [""];
    } else {
      assert " " == [' '];
      SplitOfJoined(ps, ' ');
      NonEmptyOfNonEmpty(ps);
    }
  }

  /** An index followed by one character: the index is read back from all
    * but the last character. */
  lemma IndexThenChar(ix: nat, c: char)
    requires ix < U64_LIMIT
    ensures var p := NatToString(ix) + [c];
      |p| > 0 && p[..|p| - 1] == NatToString(ix) && p[|p| - 1] == c &&
      ParseU64(p[..|p| - 1]) == Some(ix)
  {
    var p := NatToString(ix) + [c];
    assert p[..|p| - 1] == NatToString(ix);
    NatToStringParses(ix);
  }

  /** A rendered index holds no space. */
  lemma NoSpaceInIndex(ix: nat)
    ensures ' ' !in NatToString(ix)
  {
  }

  /** Rewriting the members of an O-group to indices and back gives the
    * group again, when its member field is in the written form and every
    * member is in the map. */
  lemma OGroupRoundTrip(nameMap: map<string, nat>, inverseMap: seq<string>, g: Group)
    requires Valid(nameMap, inverseMap) && |inverseMap| <= U64_LIMIT
    requires Canonical(g.varField) && ConvertGroup(MapO(nameMap), g).Some?
    ensures ConvertGroup(UnmapO(inverseMap), ConvertGroup(MapO(nameMap), g).value) == Some(g)
  {
    var ts := Tokens(g.varField);
    var ps := Pieces(MapO(nameMap), ts).value;
    forall k | 0 <= k < |ps|
      ensures ps[k] != "" && ' ' !in ps[k] && Piece(UnmapO(inverseMap), ps[k]) == Some(ts[k])
    {
      OMemberRoundTrip(nameMap, inverseMap, ts[k]);
    }
    TokensOfJoined(ps);
    var back := Pieces(UnmapO(inverseMap), ps);
    assert back.Some?;
    assert back.value == ts;
  }

  /** One O-group member to its index and back. */
  lemma OMemberRoundTrip(nameMap: map<string, nat>, inverseMap: seq<string>, t: string)
    requires Valid(nameMap, inverseMap) && |inverseMap| <= U64_LIMIT
    requires t != "" && ' ' !in t && Piece(MapO(nameMap), t).Some?
    ensures var p := Piece(MapO(nameMap), t).value;
      p != "" && ' ' !in p && Piece(UnmapO(inverseMap), p) == Some(t)
  {
    var name := t[..|t| - 1];
    var c := t[|t| - 1];
    assert c in t;
    var ix := nameMap[name];
    IndexThenChar(ix, c);
    NoSpaceInIndex(ix);
    var p := NatToString(ix) + [c];
    assert Piece(MapO(nameMap), t) == Some(p);
    assert ' ' !in p;
    assert name + [c] == t;
    assert Piece(UnmapO(inverseMap), p) == Some(inverseMap[ix] + [c]);
  }

  /** The same for a U-group, whose members are bare ids. */
  lemma UGroupRoundTrip(nameMap: map<string, nat>, inverseMap: seq<string>, g: Group)
    requires Valid(nameMap, inverseMap) && |inverseMap| <= U64_LIMIT
    requires Canonical(g.varField) && ConvertGroup(MapU(nameMap), g).Some?
    ensures ConvertGroup(UnmapU(inverseMap), ConvertGroup(MapU(nameMap), g).value) == Some(g)
  {
    var ts := Tokens(g.varField);
    var ps := Pieces(MapU(nameMap), ts).value;
    forall k | 0 <= k < |ps|
      ensures ps[k] != "" && ' ' !in ps[k] && Piece(UnmapU(inverseMap), ps[k]) == Some(ts[k])
    {
      NatToStringParses(nameMap[ts[k]]);
      NoSpaceInIndex(nameMap[ts[k]]);
    }
    TokensOfJoined(ps);
    var back := Pieces(UnmapU(inverseMap), ps);
    assert back.Some?;
    assert back.value == ts;
  }

  // ---------------------------------------------------------------------
  // Whole documents
  // ---------------------------------------------------------------------

  /** Every group of a list rewritten, or `None` when one of them misses. */
  function GroupsConverted(dir: Direction, gs: seq<Group>): (r: Option<seq<Group>>)
    ensures r.Some? <==> forall k :: 0 <= k < |gs| ==> ConvertGroup(dir, gs[k]).Some?
    ensures r.Some? ==> (|r.value| == |gs| &&
      forall k :: 0 <= k < |gs| ==> ConvertGroup(dir, gs[k]) == Some(r.value[k]))
  {
    if forall k :: 0 <= k < |gs| ==> ConvertGroup(dir, gs[k]).Some? then
      Some(seq(|gs|, k requires 0 <= k < |gs| => match ConvertGroup(dir, gs[k]) case Some(x) => x case None => gs[k]))
    else None
  }

  /** Every id of a record list is a key of the name map. */
  predicate Mapped(nameMap: map<string, nat>, rs: seq<Rec<string>>)
  {
    forall k :: 0 <= k < |rs| ==> rs[k].id in nameMap
  }

  /** Every index of a record list is below `n`. */
  predicate InRange(n: nat, rs: seq<Rec<nat>>)
  {
    forall k :: 0 <= k < |rs| ==> rs[k].id < n
  }

  /** `gfa2_bstring_to_usize`: `None` on a hash mismatch when asked to check,
    * when a segment, fragment, edge or gap id is not in the map, or when a
    * group member is not; otherwise the document with every record id and
    * every group member replaced by its index, group ids kept. */
  function ToUsize(m: NameMap, d: Doc<string>, checkHash: bool, hasher: seq<Hashed> -> nat): Option<Doc<nat>>
  {
    if checkHash && hasher(HashInput(d)) != m.hash then None
    else
      var s := MapRecords(m.nameMap, d.segments);
      var f := MapRecords(m.nameMap, d.fragments);
      var e := MapRecords(m.nameMap, d.edges);
      var g := MapRecords(m.nameMap, d.gaps);
      var o := GroupsConverted(MapO(m.nameMap), d.groupsO);
      var u := GroupsConverted(MapU(m.nameMap), d.groupsU);
      if s.Some? && f.Some? && e.Some? && g.Some? && o.Some? && u.Some? then
        Some(Doc(d.headers, s.value, f.value, e.value, g.value, o.value, u.value))
      else None
  }

  /** `gfa2_usize_to_bstring`: `None` when a record index is out of range or
    * a group member cannot be read back; otherwise the document with names
    * restored. */
  function ToBString(m: NameMap, d: Doc<nat>): Option<Doc<string>>
  {
    var s := UnmapRecords(m.inverseMap, d.segments);
    var f := UnmapRecords(m.inverseMap, d.fragments);
    var e := UnmapRecords(m.inverseMap, d.edges);
    var g := UnmapRecords(m.inverseMap, d.gaps);
    var o := GroupsConverted(UnmapO(m.inverseMap), d.groupsO);
    var u := GroupsConverted(UnmapU(m.inverseMap), d.groupsU);
    if s.Some? && f.Some? && e.Some? && g.Some? && o.Some? && u.Some? then
      Some(Doc(d.headers, s.value, f.value, e.value, g.value, o.value, u.value))
    else None
  }

  /** What `gfa2_bstring_to_usize` returns: `None` on a hash mismatch when
    * asked to check, `None` exactly when a record id or a group member is
    * missing from the map, and otherwise every list rewritten in place with
    * the headers copied. */
  lemma ToUsizeMeaning(m: NameMap, d: Doc<string>, checkHash: bool, hasher: seq<Hashed> -> nat)
    ensures var r := ToUsize(m, d, checkHash, hasher);
      (checkHash && hasher(HashInput(d)) != m.hash ==> r.None?) &&
      (r.Some? <==>
         (!checkHash || hasher(HashInput(d)) == m.hash) &&
         Mapped(m.nameMap, d.segments) && Mapped(m.nameMap, d.fragments) &&
         Mapped(m.nameMap, d.edges) && Mapped(m.nameMap, d.gaps) &&
         GroupsConverted(MapO(m.nameMap), d.groupsO).Some? &&
         GroupsConverted(MapU(m.nameMap), d.groupsU).Some?) &&
      (r.Some? ==>
         r.value.headers == d.headers &&
         Some(r.value.segments) == MapRecords(m.nameMap, d.segments) &&
         Some(r.value.fragments) == MapRecords(m.nameMap, d.fragments) &&
         Some(r.value.edges) == MapRecords(m.nameMap, d.edges) &&
         Some(r.value.gaps) == MapRecords(m.nameMap, d.gaps) &&
         Some(r.value.groupsO) == GroupsConverted(MapO(m.nameMap), d.groupsO) &&
         Some(r.value.groupsU) == GroupsConverted(MapU(m.nameMap), d.groupsU))
  {
  }

  /** What `gfa2_usize_to_bstring` returns: `None` exactly when a record
    * index is out of range or a group member cannot be read back, and
    * otherwise every list rewritten in place with the headers copied. */
  lemma ToBStringMeaning(m: NameMap, d: Doc<nat>)
    ensures var r := ToBString(m, d);
      (r.Some? <==>
         InRange(|m.inverseMap|, d.segments) && InRange(|m.inverseMap|, d.fragments) &&
         InRange(|m.inverseMap|, d.edges) && InRange(|m.inverseMap|, d.gaps) &&
         GroupsConverted(UnmapO(m.inverseMap), d.groupsO).Some? &&
         GroupsConverted(UnmapU(m.inverseMap), d.groupsU).Some?) &&
      (r.Some? ==>
         r.value.headers == d.headers &&
         Some(r.value.segments) == UnmapRecords(m.inverseMap, d.segments) &&
         Some(r.value.fragments) == UnmapRecords(m.inverseMap, d.fragments) &&
         Some(r.value.edges) == UnmapRecords(m.inverseMap, d.edges) &&
         Some(r.value.gaps) == UnmapRecords(m.inverseMap, d.gaps) &&
         Some(r.value.groupsO) == GroupsConverted(UnmapO(m.inverseMap), d.groupsO) &&
         Some(r.value.groupsU) == GroupsConverted(UnmapU(m.inverseMap), d.groupsU))
  {
  }

  /** Which of the four group rewritings a loop applies. */
  datatype GroupPass = MapOPass | UnmapOPass | MapUPass | UnmapUPass

  function DirOf(m: NameMap, p: GroupPass): Direction
  {
    match p
    case MapOPass => MapO(m.nameMap)
    case UnmapOPass => UnmapO(m.inverseMap)
    case MapUPass => MapU(m.nameMap)
    case UnmapUPass => UnmapU(m.inverseMap)
  }

  /** The loop `for group in list { let new = self.<pass>(group)?; push }`. */
  method GroupsLoop(m: NameMap, p: GroupPass, gs: seq<Group>) returns (r: Option<seq<Group>>)
    ensures r == GroupsConverted(DirOf(m, p), gs)
  {
    ghost var dir := DirOf(m, p);
    var out: seq<Group> := [];
    var i := 0;
    while i < |gs|
      invariant 0 <= i <= |gs| && |out| == i
      invariant forall k :: 0 <= k < i ==> ConvertGroup(dir, gs[k]) == Some(out[k])
    {
      var x := ConvertOne(m, p, gs[i]);
      if x.None? {
        GroupsMissed(dir, gs, i);
        return None;
      }
      GroupStep(dir, gs, out, i, x.value);
      out := out + [x.value];
      i := i + 1;
    }
    GroupsOfOut(dir, gs, out);
    r := Some(out);
  }

  /** One more group rewritten, after the ones before it. */
  lemma GroupStep(dir: Direction, gs: seq<Group>, out: seq<Group>, i: nat, x: Group)
    requires i < |gs| && |out| == i && ConvertGroup(dir, gs[i]) == Some(x)
    requires forall k :: 0 <= k < i ==> ConvertGroup(dir, gs[k]) == Some(out[k])
    ensures forall k :: 0 <= k < i + 1 ==> ConvertGroup(dir, gs[k]) == Some((out + [x])[k])
  {
    forall k | 0 <= k < i + 1
      ensures ConvertGroup(dir, gs[k]) == Some((out + [x])[k])
    {
      if k < i {
        assert (out + [x])[k] == out[k];
      }
    }
  }

  /** When every group was rewritten, the rewritten groups are
    * `GroupsConverted`. */
  lemma GroupsOfOut(dir: Direction, gs: seq<Group>, out: seq<Group>)
    requires |out| == |gs| && forall k :: 0 <= k < |gs| ==> ConvertGroup(dir, gs[k]) == Some(out[k])
    ensures GroupsConverted(dir, gs) == Some(out)
  {
    assert GroupsConverted(dir, gs).value == out;
  }

  /** One group that misses makes the whole list miss. */
  lemma GroupsMissed(dir: Direction, gs: seq<Group>, miss: nat)
    requires miss < |gs| && ConvertGroup(dir, gs[miss]).None?
    ensures GroupsConverted(dir, gs).None?
  {
  }

  /** The rewriting of one group a pass applies. */
  method ConvertOne(m: NameMap, p: GroupPass, g: Group) returns (x: Option<Group>)
    ensures x == ConvertGroup(DirOf(m, p), g)
  {
    match p {
      case MapOPass => x := MapOgroupSegments(m, g);
      case UnmapOPass => x := InverseMapOgroupSegments(m, g);
      case MapUPass => x := MapUgroupSegments(m, g);
      case UnmapUPass => x := InverseMapUgroupSegments(m, g);
    }
  }

  /** `gfa2_bstring_to_usize` as written: the hash check, then one loop per
    * list, each returning `None` at the first miss. */
  method Gfa2BStringToUsize(m: NameMap, d: Doc<string>, checkHash: bool, hasher: seq<Hashed> -> nat)
    returns (r: Option<Doc<nat>>)
    ensures r == ToUsize(m, d, checkHash, hasher)
  {
    if checkHash && hasher(HashInput(d)) != m.hash {
      return None;
    }
    var s := MapRecordsLoop(m, d.segments);
    if s.None? { return None; }
    var f := MapRecordsLoop(m, d.fragments);
    if f.None? { return None; }
    var e := MapRecordsLoop(m, d.edges);
    if e.None? { return None; }
    var g := MapRecordsLoop(m, d.gaps);
    if g.None? { return None; }
    assert DirOf(m, MapOPass) == MapO(m.nameMap);
    var o := GroupsLoop(m, MapOPass, d.groupsO);
    if o.None? { return None; }
    assert DirOf(m, MapUPass) == MapU(m.nameMap);
    var u := GroupsLoop(m, MapUPass, d.groupsU);
    if u.None? { return None; }
    r := Some(Doc(d.headers, s.value, f.value, e.value, g.value, o.value, u.value));
  }

  /** `gfa2_usize_to_bstring` as written. */
  method Gfa2UsizeToBString(m: NameMap, d: Doc<nat>) returns (r: Option<Doc<string>>)
    ensures r == ToBString(m, d)
  {
    var s := UnmapRecordsLoop(m, d.segments);
    if s.None? { return None; }
    var f := UnmapRecordsLoop(m, d.fragments);
    if f.None? { return None; }
    var e := UnmapRecordsLoop(m, d.edges);
    if e.None? { return None; }
    var g := UnmapRecordsLoop(m, d.gaps);
    if g.None? { return None; }
    assert DirOf(m, UnmapOPass) == UnmapO(m.inverseMap);
    var o := GroupsLoop(m, UnmapOPass, d.groupsO);
    if o.None? { return None; }
    assert DirOf(m, UnmapUPass) == UnmapU(m.inverseMap);
    var u := GroupsLoop(m, UnmapUPass, d.groupsU);
    if u.None? { return None; }
    r := Some(Doc(d.headers, s.value, f.value, e.value, g.value, o.value, u.value));
  }

  /** The name part of an O-group member. */
  function OMemberName(t: string): string
  {
    if |t| == 0 then t else t[..|t| - 1]
  }

  /** What the round trip needs of a document's groups: every member field
    * in the written form, and every member an id of a segment, fragment,
    * edge or gap. */
  predicate GroupsWellFormed(d: Doc<string>)
  {
    (forall k :: 0 <= k < |d.groupsO| ==> (Canonical(d.groupsO[k].varField) &&
       forall j :: 0 <= j < |Tokens(d.groupsO[k].varField)| ==> OMemberName(Tokens(d.groupsO[k].varField)[j]) in AllIds(d))) &&
    (forall k :: 0 <= k < |d.groupsU| ==> (Canonical(d.groupsU[k].varField) &&
       forall j :: 0 <= j < |Tokens(d.groupsU[k].varField)| ==> Tokens(d.groupsU[k].varField)[j] in AllIds(d)))
  }

  /** The records of a list whose ids were all visited are all mapped. */
  lemma ListMapped(nameMap: map<string, nat>, ids: seq<string>, rs: seq<Rec<string>>)
    requires forall n :: n in ids ==> n in nameMap
    requires forall k :: 0 <= k < |rs| ==> rs[k].id in ids
    ensures Mapped(nameMap, rs)
  {
  }

  /** The groups of a document convert to indices and back under the map
    * built from it. */
  lemma GroupsRoundTrip(d: Doc<string>, m: NameMap)
    requires GroupsWellFormed(d) && Valid(m.nameMap, m.inverseMap) && |m.inverseMap| <= U64_LIMIT
    requires forall n :: n in AllIds(d) ==> n in m.nameMap
    ensures GroupsConverted(MapO(m.nameMap), d.groupsO).Some?
    ensures GroupsConverted(MapU(m.nameMap), d.groupsU).Some?
    ensures GroupsConverted(UnmapO(m.inverseMap), GroupsConverted(MapO(m.nameMap), d.groupsO).value) == Some(d.groupsO)
    ensures GroupsConverted(UnmapU(m.inverseMap), GroupsConverted(MapU(m.nameMap), d.groupsU).value) == Some(d.groupsU)
  {
    forall k | 0 <= k < |d.groupsO|
      ensures ConvertGroup(MapO(m.nameMap), d.groupsO[k]).Some? &&
        ConvertGroup(UnmapO(m.inverseMap), ConvertGroup(MapO(m.nameMap), d.groupsO[k]).value) == Some(d.groupsO[k])
    {
      var ts := Tokens(d.groupsO[k].varField);
      forall j | 0 <= j < |ts|
        ensures Piece(MapO(m.nameMap), ts[j]).Some?
      {
        assert OMemberName(ts[j]) in AllIds(d);
      }
      OGroupRoundTrip(m.nameMap, m.inverseMap, d.groupsO[k]);
    }
    forall k | 0 <= k < |d.groupsU|
      ensures ConvertGroup(MapU(m.nameMap), d.groupsU[k]).Some? &&
        ConvertGroup(UnmapU(m.inverseMap), ConvertGroup(MapU(m.nameMap), d.groupsU[k]).value) == Some(d.groupsU[k])
    {
      var ts := Tokens(d.groupsU[k].varField);
      forall j | 0 <= j < |ts|
        ensures Piece(MapU(m.nameMap), ts[j]).Some?
      {
        assert ts[j] in AllIds(d);
      }
      UGroupRoundTrip(m.nameMap, m.inverseMap, d.groupsU[k]);
    }
    var o := GroupsConverted(MapO(m.nameMap), d.groupsO).value;
    assert GroupsConverted(UnmapO(m.inverseMap), o).value == d.groupsO;
    var u := GroupsConverted(MapU(m.nameMap), d.groupsU).value;
    assert GroupsConverted(UnmapU(m.inverseMap), u).value == d.groupsU;
  }

  /** The round trip the crate's own test asserts: converting the document a
    * map was built from to indices succeeds, and converting back gives the
    * document again, provided its groups are well formed and it has fewer
    * than 2^64 ids. */
  lemma BuiltRoundTrip(d: Doc<string>, hasher: seq<Hashed> -> nat, checkHash: bool)
    requires GroupsWellFormed(d) && |AllIds(d)| <= U64_LIMIT
    ensures var m := Built(d, hasher);
      ToUsize(m, d, checkHash, hasher).Some? &&
      ToBString(m, ToUsize(m, d, checkHash, hasher).value) == Some(d)
  {
    var m := Built(d, hasher);
    BuiltFacts(d, hasher);
    InternedFacts(AllIds(d));
    RecordListsRoundTrip(d, m);
    GroupsRoundTrip(d, m);
    ToUsizeMeaning(m, d, checkHash, hasher);
    var x := ToUsize(m, d, checkHash, hasher).value;
    ToBStringMeaning(m, x);
    var y := ToBString(m, x).value;
    assert y == d;
  }

  /** The record lists of a document convert to indices and back under a map
    * that holds every id of it. */
  lemma RecordListsRoundTrip(d: Doc<string>, m: NameMap)
    requires Valid(m.nameMap, m.inverseMap)
    requires forall n :: n in AllIds(d) ==> n in m.nameMap
    ensures Mapped(m.nameMap, d.segments) && Mapped(m.nameMap, d.fragments) &&
      Mapped(m.nameMap, d.edges) && Mapped(m.nameMap, d.gaps)
    ensures UnmapRecords(m.inverseMap, MapRecords(m.nameMap, d.segments).value) == Some(d.segments)
    ensures UnmapRecords(m.inverseMap, MapRecords(m.nameMap, d.fragments).value) == Some(d.fragments)
    ensures UnmapRecords(m.inverseMap, MapRecords(m.nameMap, d.edges).value) == Some(d.edges)
    ensures UnmapRecords(m.inverseMap, MapRecords(m.nameMap, d.gaps).value) == Some(d.gaps)
  {
    var ids := AllIds(d);
    ListMapped(m.nameMap, ids, d.segments);
    ListMapped(m.nameMap, ids, d.fragments);
    ListMapped(m.nameMap, ids, d.edges);
    ListMapped(m.nameMap, ids, d.gaps);
    RecordsRoundTrip(m.nameMap, m.inverseMap, d.segments);
    RecordsRoundTrip(m.nameMap, m.inverseMap, d.fragments);
    RecordsRoundTrip(m.nameMap, m.inverseMap, d.edges);
    RecordsRoundTrip(m.nameMap, m.inverseMap, d.gaps);
  }

  /** A group that names anything besides a segment, fragment, edge or gap
    * (another group, say) cannot be converted: its ids are never interned. */
  lemma UnknownMemberRefused(d: Doc<string>, hasher: seq<Hashed> -> nat, k: nat, j: nat)
    requires k < |d.groupsU| && j < |Tokens(d.groupsU[k].varField)|
    requires Tokens(d.groupsU[k].varField)[j] !in AllIds(d)
    ensures ToUsize(Built(d, hasher), d, false, hasher).None?
  {
    BuiltFacts(d, hasher);
    var m := Built(d, hasher);
    ToUsizeMeaning(m, d, false, hasher);
    assert Piece(MapU(m.nameMap), Tokens(d.groupsU[k].varField)[j]).None?;
    assert ConvertGroup(MapU(m.nameMap), d.groupsU[k]).None?;
  }
}
