/**
 The two tables of map.c that are built once, from a whole list: names to ids (map_si) and ids to pointers (map_ip).
 Their hash forms have as many slots as entries and end up full; map_ip uses a plain array when ids are dense.
 */
module FullTables {
  import opened HashChains
  import opened NameTable

  datatype Pair<K> = Pair(key: K, value: int)

  /** What the first i pairs of a list map. */
  ghost function Listing<K>(table: seq<Pair<K>>, i: int): map<K, int>
    requires 0 <= i <= |table|
  {
    if i == 0 then map[] else Listing(table, i - 1)[table[i - 1].key := table[i - 1].value]
  }

  ghost predicate DistinctKeys<K>(table: seq<Pair<K>>)
  {
    forall i, j {:trigger table[i], table[j]} :: 0 <= i < j < |table| ==> table[i].key != table[j].key
  }

  lemma {:induction false} ListingKeys<K>(table: seq<Pair<K>>, i: int)
    requires 0 <= i <= |table|
    ensures forall k {:trigger k in Listing(table, i)} :: k in Listing(table, i) <==> exists j :: 0 <= j < i && table[j].key == k
  {
    if i > 0 {
      ListingKeys(table, i - 1);
      forall k
        ensures k in Listing(table, i) <==> exists j :: 0 <= j < i && table[j].key == k
      {
        if k == table[i - 1].key {
          assert 0 <= i - 1 < i;
        }
      }
    }
  }

  lemma NewKey<K>(table: seq<Pair<K>>, i: int)
    requires DistinctKeys(table) && 0 <= i < |table|
    ensures table[i].key !in Listing(table, i)
  {
    ListingKeys(table, i);
  }

  /** The hash forms of _pbcM_si_new and _pbcM_ip_new_hash: one slot for every entry. */
  method Build<K(==)>(table: seq<Pair<K>>, hash: K -> nat) returns (slot: array<Slot<K>>, ghost r: Index<K>)
    requires |table| > 0 && DistinctKeys(table)
    ensures fresh(slot) && slot.Length == |table| && Good(slot[..], hash, r) && Contents(slot[..], r) == Listing(table, |table|)
    ensures Used(slot[..]) == slot.Length
  {
    hide Good, Used, Contents;
    slot := new Slot<K>[|table|](_ => Free);
    r := Nothing();
    EmptyGood(slot[..], hash);
    NoneUsed(slot[..]);
    var empty: nat := 0;
    var i := 0;
    while i < |table|
      invariant 0 <= i <= |table| && Good(slot[..], hash, r) && Contents(slot[..], r) == Listing(table, i)
      invariant Used(slot[..]) == i && TakenBefore(slot[..], empty) && r.place.Keys == Listing(table, i).Keys
    {
      NewKey(table, i);
      empty, r := Fill(slot, table[i].key, hash(table[i].key), table[i].value, empty, hash, r);
      i := i + 1;
    }
  }

  class SiMap {
    const slot: array<Slot<Name>>
    ghost const r: Index<Name>

    ghost predicate Valid()
      reads slot
    {
      Good(slot[..], CalcHash, r) && Used(slot[..]) == slot.Length
    }

    ghost function Map(): map<Name, int>
      reads slot
    {
      Contents(slot[..], r)
    }

    /** _pbcM_si_new(table, size): every slot ends up used. */
    constructor (table: seq<Pair<Name>>)
      requires |table| > 0 && DistinctKeys(table)
      ensures Valid() && Map() == Listing(table, |table|) && slot.Length == |table|
      ensures forall j :: 0 <= j < slot.Length ==> slot[j].Slot?
    {
      var s, q := Build(table, CalcHash);
      slot, r := s, q;
      new;
      UsedBound(slot[..]);
      assert forall j {:trigger slot[j]} :: 0 <= j < slot.Length ==> slot[..][j] == slot[j];
    }

    /** _pbcM_si_query */
    method Query(key: Name) returns (found: bool, id: int)
      requires Valid()
      ensures found <==> key in Map()
      ensures found ==> id == Map()[key]
    {
      hide Good, Used, CalcHash;
      var at := Lookup(slot, key, CalcHash(key), CalcHash, r);
      MapKeys(slot[..], r);
      if at == -1 {
        return false, 0;
      }
      WalkMeets(slot[..], CalcHash, r, at);
      return true, slot[at].value;
    }
  }

  // ---------------------------------------------------------------- ids to pointers

  type Id = i: int | -0x8000_0000 <= i < 0x8000_0000

  /** (unsigned) id */
  function Unsigned(id: Id): nat
  {
    if id < 0 then id + 0x1_0000_0000 else id
  }

  ghost predicate NoNulls(table: seq<Pair<Id>>)
  {
    forall i {:trigger table[i]} :: 0 <= i < |table| ==> table[i].value != 0
  }

  lemma {:induction false} ListingSize<K>(table: seq<Pair<K>>, i: int)
    requires 0 <= i <= |table| && DistinctKeys(table)
    ensures |Listing(table, i)| == i
  {
    if i > 0 {
      ListingSize(table, i - 1);
      NewKey(table, i - 1);
    }
  }

  lemma {:induction false} ListingPrefix<K>(a: seq<Pair<K>>, b: seq<Pair<K>>, i: int)
    requires 0 <= i <= |a|
    ensures Listing(a + b, i) == Listing(a, i)
  {
    if i > 0 {
      ListingPrefix(a, b, i - 1);
    }
  }

  lemma {:induction false} ListingJoin<K>(a: seq<Pair<K>>, b: seq<Pair<K>>, i: int)
    requires 0 <= i <= |b|
    ensures Listing(a + b, |a| + i) == Listing(a, |a|) + Listing(b, i)
  {
    if i == 0 {
      ListingPrefix(a, b, |a|);
    } else {
      ListingJoin(a, b, i - 1);
      assert (a + b)[|a| + i - 1] == b[i - 1];
    }
  }

  /** The last pair of a list, and of the map it makes. */
  lemma ListingSnoc<K>(a: seq<Pair<K>>, p: Pair<K>)
    ensures Listing(a + [p], |a| + 1) == Listing(a, |a|)[p.key := p.value]
  {
    ListingPrefix(a, [p], |a|);
  }

  /** What the array form holds: the pointers, and NULL (0) where there is none. */
  ghost predicate Dense(a: seq<int>, m: map<Id, int>)
  {
    && (forall i {:trigger a[i]} :: 0 <= i < |a| && i < 0x8000_0000 ==> a[i] == if i in m then m[i] else 0)
    && (forall k {:trigger k in m} :: k in m ==> 0 <= k < |a|)
  }

  class IpMap {
    var cells: array?<int>          // array, and its size
    var slot: array?<Slot<Id>>       // slot
    var hashSize: nat
    ghost var r: Index<Id>
    ghost var m: map<Id, int>

    ghost predicate Valid()
      reads this, cells, slot
    {
      && hashSize == |m| > 0 && (forall k {:trigger m[k]} :: k in m ==> m[k] != 0)
      && if cells != null then slot == null && cells.Length < 0x8000_0000 && Dense(cells[..], m)
         else slot != null && Good(slot[..], Unsigned, r) && Contents(slot[..], r) == m && slot.Length == hashSize && Used(slot[..]) == hashSize
    }

    /** _pbcM_ip_query: both forms answer what the map says. */
    method Query(id: Id) returns (pointer: int)
      requires Valid()
      ensures pointer == if id in m then m[id] else 0
    {
      hide Good, Used, Contents;
      if cells != null {
        if 0 <= id < cells.Length {
          assert cells[..][id] == cells[id];
          return cells[id];
        }
        return 0;
      }
      var at := Lookup(slot, id, Unsigned(id), Unsigned, r);
      IdKeys(slot[..], r);
      if at == -1 {
        return 0;
      }
      WalkMeets(slot[..], Unsigned, r, at);
      pointer := slot[at].value;
    }

    /** _pbcM_ip_new(table, size) */
    constructor (table: seq<Pair<Id>>)
      requires 0 < |table| < 0x2000_0000 && DistinctKeys(table) && NoNulls(table)
      ensures Valid() && m == Listing(table, |table|)
    {
      hide Good, Used, Contents;
      var dense, max := MaxId(table);
      ghost var all := Listing(table, |table|);
      ListingSize(table, |table|);
      ListedNoNulls(table, |table|);
      hashSize, m := |table|, all;
      if dense {
        var a := Spread(table, max);
        cells, slot, r := a, null, Nothing();
      } else {
        var s, q := Build(table, Unsigned);
        cells, slot, r := null, s, q;
      }
    }

    /** _inject: the entries as a list, in the order of the array or of the slots */
    method Inject() returns (table: seq<Pair<Id>>)
      requires Valid()
      ensures |table| == hashSize && DistinctKeys(table) && NoNulls(table) && Listing(table, |table|) == m
    {
      hide Good, Used, Contents, Front, Unsigned;
      table := [];
      var i := 0;
      if cells != null {
        ghost var a := cells[..];
        while i < cells.Length
          invariant 0 <= i <= cells.Length && Collected(table, UpTo(m, i), i)
        {
          CollectedOn(table, a, m, i);
          assert cells[i] == a[i];
          if cells[i] != 0 {
            table := table + [Pair(i, cells[i])];
          }
          i := i + 1;
        }
        UpToAll(a, m, i);
      } else {
        ghost var t := slot[..];
        UsedBound(t);
        FrontAll(t, Unsigned, r);
        while i < hashSize
          invariant 0 <= i <= hashSize && |table| == i && Listing(table, i) == Front(t, r, i)
          invariant forall j {:trigger table[j]} :: 0 <= j < i ==> table[j] == Pair(t[j].key, t[j].value)
        {
          FrontMore(t, Unsigned, r, i);
          ListingSnoc(table, Pair(t[i].key, t[i].value));
          assert slot[i] == t[i];
          table := table + [Pair(slot[i].key, slot[i].value)];
          i := i + 1;
        }
        SlotsDistinct(t, Unsigned, r, m, table);
      }
      ListingSize(table, |table|);
    }
  }

  /** _pbcM_ip_combine(a, b): a table with the entries of both */
  method Combine(a: IpMap, b: IpMap) returns (c: IpMap)
    requires a.Valid() && b.Valid() && a.m.Keys !! b.m.Keys && a.hashSize + b.hashSize < 0x2000_0000
    ensures fresh(c) && c.Valid() && c.m == a.m + b.m
  {
    hide Good, Used, Contents, Dense;
    var first := a.Inject();
    var second := b.Inject();
    ListingJoin(first, second, |second|);
    JoinDistinct(first, second);
    c := new IpMap(first + second);
  }

  lemma JoinDistinct(a: seq<Pair<Id>>, b: seq<Pair<Id>>)
    requires DistinctKeys(a) && DistinctKeys(b) && Listing(a, |a|).Keys !! Listing(b, |b|).Keys
    ensures DistinctKeys(a + b)
  {
    ListingKeys(a, |a|);
    ListingKeys(b, |b|);
    forall i, j | 0 <= i < j < |a + b|
      ensures (a + b)[i].key != (a + b)[j].key
    {
      if i < |a| <= j {
        assert a[i].key in Listing(a, |a|) && b[j - |a|].key in Listing(b, |b|);
      }
    }
  }

  /** The part of m with ids below i. */
  ghost function UpTo(m: map<Id, int>, i: int): map<Id, int>
  {
    map k | k in m && k < i :: m[k]
  }

  /** table lists just part, whose ids are all below i. */
  ghost predicate Collected(table: seq<Pair<Id>>, part: map<Id, int>, i: int)
  {
    && Listing(table, |table|) == part && DistinctKeys(table) && NoNulls(table)
    && forall j {:trigger table[j]} :: 0 <= j < |table| ==> table[j].key < i
  }

  lemma CollectedOn(table: seq<Pair<Id>>, a: seq<int>, m: map<Id, int>, i: int)
    requires Dense(a, m) && 0 <= i < |a| && i < 0x8000_0000 && Collected(table, UpTo(m, i), i)
    requires forall k {:trigger m[k]} :: k in m ==> m[k] != 0
    ensures Collected(if a[i] != 0 then table + [Pair(i, a[i])] else table, UpTo(m, i + 1), i + 1)
  {
    hide Listing;
    assert UpTo(m, i + 1) == if i in m then UpTo(m, i)[i := m[i]] else UpTo(m, i);
    ListingSnoc(table, Pair(i, a[i]));
  }

  lemma UpToAll(a: seq<int>, m: map<Id, int>, i: int)
    requires Dense(a, m) && i == |a|
    ensures UpTo(m, i) == m
  {
  }

  lemma SlotsDistinct(t: seq<Slot<Id>>, hash: Id -> nat, r: Index<Id>, m: map<Id, int>, table: seq<Pair<Id>>)
    requires Good(t, hash, r) && Contents(t, r) == m && |table| == |t| && forall k {:trigger m[k]} :: k in m ==> m[k] != 0
    requires forall j {:trigger t[j]} :: 0 <= j < |t| ==> t[j].Slot?
    requires forall j {:trigger table[j]} :: 0 <= j < |table| ==> table[j] == Pair(t[j].key, t[j].value)
    ensures DistinctKeys(table) && NoNulls(table)
  {
    hide Good, Contents;
    forall j | 0 <= j < |t|
      ensures t[j].key in r.place && r.place[t[j].key] == j && table[j].value != 0
    {
      WalkMeets(t, hash, r, j);
      IdKeys(t, r);
      assert m[t[j].key] != 0;
    }
    forall i, j | 0 <= i < j < |table|
      ensures table[i].key != table[j].key
    {
      assert r.place[t[i].key] == i && r.place[t[j].key] == j;
    }
  }

  lemma IdKeys(t: seq<Slot<Id>>, r: Index<Id>)
    ensures Contents(t, r).Keys == r.place.Keys
  {
  }

  lemma {:induction false} ListedNoNulls(table: seq<Pair<Id>>, i: int)
    requires 0 <= i <= |table| && NoNulls(table)
    ensures forall k {:trigger Listing(table, i)[k]} :: k in Listing(table, i) ==> Listing(table, i)[k] != 0
  {
    if i > 0 {
      ListedNoNulls(table, i - 1);
    }
  }

  /** The first loop of _pbcM_ip_new: whether all ids are in 0 .. 2 * size, and the largest of them. */
  method MaxId(table: seq<Pair<Id>>) returns (dense: bool, max: int)
    requires |table| > 0
    ensures dense <==> forall i {:trigger table[i]} :: 0 <= i < |table| ==> 0 <= table[i].key <= 2 * |table|
    ensures dense ==> (forall i {:trigger table[i]} :: 0 <= i < |table| ==> table[i].key <= max) && exists i :: 0 <= i < |table| && table[i].key == max
  {
    var size := |table|;
    max := table[0].key;
    if max > size * 2 || max < 0 {
      return false, max;
    }
    var i, best := 1, 0;
    while i < size
      invariant 1 <= i <= size && 0 <= best < i && table[best].key == max && 0 <= max <= 2 * size
      invariant forall j {:trigger table[j]} :: 0 <= j < i ==> 0 <= table[j].key <= max
    {
      if table[i].key < 0 {
        return false, max;
      }
      if table[i].key > max {
        max := table[i].key;
        best := i;
        if max > size * 2 {
          return false, max;
        }
      }
      i := i + 1;
    }
    dense := true;
  }

  /** The array form: every pointer at its id. */
  method Spread(table: seq<Pair<Id>>, max: int) returns (a: array<int>)
    requires 0 <= max < 0x7FFF_FFFF && forall i {:trigger table[i]} :: 0 <= i < |table| ==> 0 <= table[i].key <= max
    ensures fresh(a) && a.Length == max + 1 && Dense(a[..], Listing(table, |table|))
  {
    a := new int[max + 1](_ => 0);
    var i := 0;
    while i < |table|
      invariant 0 <= i <= |table| && Dense(a[..], Listing(table, i))
    {
      a[table[i].key] := table[i].value;
      i := i + 1;
    }
  }
}
