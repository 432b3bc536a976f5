/** The table of map.c from names to pointers, map_sp: open probing for free slots, chains, and doubling when full. */
module NameTable {
  import opened HashChains
  import Limbs

  /** A C string: bytes other than 0. */
  type Name = s: seq<int> | forall i :: 0 <= i < |s| ==> 0 < s[i] < 256

  /** A char as size_t: chars are signed. */
  function CharBits(c: int): bv64
    requires 0 <= c < 256
  {
    if c < 128 then c as bv64 else (0x1_0000_0000_0000_0000 - 256 + c) as bv64
  }

  /** The loop of calc_hash from position i down. */
  function HashFrom(name: Name, i: int, step: nat, h: bv64): bv64
    requires i <= |name| && step > 0
    decreases i
  {
    if i < step || i <= 0 then h else HashFrom(name, i - step, step, h ^ ((h << 5) + (h >> 2) + CharBits(name[i - 1])))
  }

  function CalcHash(name: Name): nat
  {
    HashFrom(name, |name|, |name| / 32 + 1, (|name| % 0x1_0000_0000_0000_0000) as bv64) as nat
  }

  /** The empty name is the one whose hash is that of a slot that is still zero. */
  lemma EmptyName()
    ensures CalcHash([]) == 0
  {
  }

  lemma Doubled(c: int)
    ensures Limbs.PowerOfTwo(1) && (c >= 1 && Limbs.PowerOfTwo(c) ==> Limbs.PowerOfTwo(2 * c))
  {
    HalfOf(c);
    if c >= 1 && Limbs.PowerOfTwo(c) {
      DoubleStep(c, 2 * c);
    }
  }

  lemma HalfOf(c: int)
    ensures 2 * c % 2 == 0 && 2 * c / 2 == c
  {
  }

  lemma DoubleStep(c: int, d: int)
    requires Limbs.PowerOfTwo(c) && c >= 1 && d > 1 && d % 2 == 0 && d / 2 == c
    ensures Limbs.PowerOfTwo(d)
  {
  }

  class SpMap {
    var cap: nat
    var size: nat
    var slot: array<Slot<Name>>
    ghost var r: Index<Name>

    ghost predicate Valid()
      reads this, slot
    {
      slot.Length == cap && Limbs.PowerOfTwo(cap) && Good(slot[..], CalcHash, r) && size == Used(slot[..])
    }

    /** The map it stands for. */
    ghost function Map(): map<Name, int>
      reads this, slot
    {
      Contents(slot[..], r)
    }

    /** _pbcM_sp_new(max, h) */
    constructor (max: int)
      ensures Valid() && Map() == map[] && fresh(slot) && size == 0
      ensures cap >= max && (cap == 1 || cap < 2 * max)
    {
      hide Good, Used, CalcHash, Limbs.PowerOfTwo;
      var c := 1;
      Doubled(c);
      while c < max
        invariant Limbs.PowerOfTwo(c) && c >= 1 && (c == 1 || c < 2 * max)
      {
        Doubled(c);
        c := 2 * c;
      }
      cap, size := c, 0;
      slot := new Slot<Name>[c](_ => Free);
      r := Nothing();
      new;
      EmptyGood(slot[..], CalcHash);
      NoneUsed(slot[..]);
    }

    /** The first free slot after home, going round. */
    method Probe(home: int) returns (empty: int)
      requires Valid() && 0 <= home < cap && size < cap
      ensures 0 <= empty < cap && slot[empty] == Free
    {
      hide Good, Used, Limbs.PowerOfTwo, CalcHash, Round;
      ghost var f := SomeFree(slot[..]);
      assert slot[f] == Free;
      empty := Round(home + 1, cap);
      RoundOn(home, cap);
      while slot[empty].Slot?
        invariant 0 <= empty < cap
        decreases if empty <= f then f - empty else f - empty + cap
      {
        RoundOn(empty, cap);
        empty := Round(empty + 1, cap);
      }
    }

    /** A key that is not there goes into its home slot, or a free one after it that is chained to the home slot. */
    method Place(key: Name, hash: nat, value: int) returns (at: int)
      requires Valid() && key !in r.place && hash == CalcHash(key) && size < cap
      modifies this`size, this`r, slot
      ensures Valid() && Map() == old(Map())[key := value] && size == old(size) + 1
      ensures 0 <= at < cap && key in r.place && r.place[key] == at
    {
      hide Good, Used, Limbs.PowerOfTwo, CalcHash, Contents, Chained, ChainedIndex, Housed, HousedIndex;
      ghost var t := slot[..];
      var home := Round(hash, cap);
      if slot[home] == Free {
        HousedGood(t, CalcHash, r, key, value, home);
        HousedIs(t, r, key, hash, value, home);
        slot[home] := Slot(key, hash, value, 0);
        r := HousedIndex(r, key, home);
        at := home;
      } else {
        var empty := Probe(home);
        MayChain(t, CalcHash, r, home, empty);
        ChainedGood(t, CalcHash, r, key, value, home, empty);
        ChainedIs(t, r, key, hash, value, home, empty);
        slot[empty] := Slot(key, hash, value, slot[home].next);
        slot[home] := slot[home].(next := empty + 1);
        r := ChainedIndex(r, key, home, empty);
        at := empty;
      }
      assert slot[..] == if t[home] == Free then Housed(t, key, hash, value, home) else Chained(t, key, hash, value, home, at);
      size := size + 1;
    }

    /** _pbcM_sp_rehash: the entries of the full table, in the order of its slots, into one of twice the size. */
    method Rehash()
      requires Valid() && size == cap
      modifies this
      ensures Valid() && fresh(slot) && Map() == old(Map()) && cap == 2 * old(cap) && size == old(size)
    {
      hide Used, CalcHash, Contents, Front, Good;
      ghost var t, q := slot[..], r;
      UsedBound(t);
      FrontAll(t, CalcHash, q);
      var oldSlot, n := slot, size;
      size := 0;
      cap := 2 * cap;
      slot := new Slot<Name>[cap](_ => Free);
      r := Nothing();
      EmptyGood(slot[..], CalcHash);
      NoneUsed(slot[..]);
      var i := 0;
      while i < n
        invariant 0 <= i <= n && Valid() && size == i && cap == 2 * n && fresh(slot) && slot != oldSlot
        invariant oldSlot[..] == t && Map() == Front(t, q, i)
      {
        FrontMore(t, CalcHash, q, i);
        MapKeys(slot[..], r);
        var at := Place(oldSlot[i].key, oldSlot[i].hash, oldSlot[i].value);
        i := i + 1;
      }
    }

    /** _pbcM_sp_insert, for a key that is not there yet */
    method Insert(key: Name, value: int)
      requires Valid() && key !in Map()
      modifies this, slot
      ensures Valid() && (slot == old(slot) || fresh(slot)) && Map() == old(Map())[key := value] && size == old(size) + 1
    {
      hide Used, CalcHash, Contents, Good, Limbs.PowerOfTwo;
      MapKeys(slot[..], r);
      NotEmpty(slot[..], CalcHash, r);
      var hash := CalcHash(key);
      UsedBound(slot[..]);
      if cap <= size {
        Rehash();
        MapKeys(slot[..], r);
      }
      var at := Place(key, hash, value);
    }

    /** The walk from the home slot: the slot of the key, or -1. A name that hashes to 0 would match a free slot. */
    method Find(key: Name, hash: nat) returns (at: int)
      requires Valid() && hash == CalcHash(key) != 0
      ensures if at == -1 then key !in r.place else key in r.place && at == r.place[key] && 0 <= at < cap && slot[at].Slot?
    {
      hide Used, CalcHash, Limbs.PowerOfTwo, Good;
      at := Lookup(slot, key, hash, CalcHash, r);
      if at != -1 {
        WalkMeets(slot[..], CalcHash, r, at);
      }
    }

    /** _pbcM_sp_query: the pointer, NULL (0) when there is none */
    method Query(key: Name) returns (value: int)
      requires Valid() && CalcHash(key) != 0
      ensures value == if key in Map() then Map()[key] else 0
    {
      hide Used, CalcHash, Limbs.PowerOfTwo, Good;
      MapKeys(slot[..], r);
      var at := Find(key, CalcHash(key));
      if at == -1 {
        return 0;
      }
      WalkMeets(slot[..], CalcHash, r, at);
      value := slot[at].value;
    }

    /** _pbcM_sp_query_insert: the slot for the key, which is made, with a NULL pointer, when it is not there */
    method QueryInsert(key: Name) returns (at: int)
      requires Valid() && CalcHash(key) != 0
      modifies this, slot
      ensures Valid() && (slot == old(slot) || fresh(slot)) && key in r.place && at == r.place[key] && 0 <= at < cap
      ensures Map() == if key in old(Map()) then old(Map()) else old(Map())[key := 0]
    {
      hide Used, CalcHash, Limbs.PowerOfTwo, Good, Contents;
      MapKeys(slot[..], r);
      NotEmpty(slot[..], CalcHash, r);
      UsedBound(slot[..]);
      var hash := CalcHash(key);
      at := Find(key, hash);
      if at == -1 {
        if cap <= size {
          Rehash();
          MapKeys(slot[..], r);
        }
        at := Place(key, hash, 0);
      }
    }

    // -------------------------------------------------------------- iteration

    /** The first slot from i on with a pointer that is not NULL, or -1. */
    method NextFrom(i: nat) returns (j: int)
      requires Valid()
      ensures if j == -1 then NoneFrom(slot[..], i, cap) else i <= j < cap && slot[j].Slot? && slot[j].value != 0 && NoneFrom(slot[..], i, j)
    {
      hide Used, CalcHash, Limbs.PowerOfTwo, Good;
      j := i;
      while j < cap
        invariant i <= j && NoneFrom(slot[..], i, j)
      {
        if slot[j].Slot? && slot[j].value != 0 {
          return;
        }
        j := j + 1;
      }
      j := -1;
    }

    /** _pbcM_sp_next: the entry after that of key in the order of the slots, or the first one; None at the end. */
    method Next(key: Option) returns (next: Option, value: int)
      requires Valid() && (key.Some? ==> CalcHash(key.name) != 0)
      ensures key.Some? && key.name !in r.place ==> next == None
      ensures key.Some? ==> key.name !in r.place || After(slot[..], r.place[key.name] + 1, cap, next, value)
      ensures key.None? ==> After(slot[..], 0, cap, next, value)
    {
      hide Used, CalcHash, Limbs.PowerOfTwo, Good;
      var i := 0;
      if key.Some? {
        i := Find(key.name, CalcHash(key.name));
        if i == -1 {
          return None, 0;
        }
        i := i + 1;
      }
      i := NextFrom(i);
      if i == -1 {
        return None, 0;
      }
      next, value := Some(slot[i].key), slot[i].value;
    }

    /** Calling next until the end gives every entry whose pointer is not NULL, each of them once. */
    method Walk() returns (seen: seq<Name>)
      requires Valid() && forall k :: k in Map() ==> CalcHash(k) != 0
      ensures forall k :: k in seen <==> k in Map() && Map()[k] != 0
      ensures forall i, j :: 0 <= i < j < |seen| ==> seen[i] != seen[j]
    {
      hide Used, CalcHash, Limbs.PowerOfTwo, Good, Contents, After, Listed;
      ghost var t := slot[..];
      MapKeys(t, r);
      NotEmpty(t, CalcHash, r);
      seen := [];
      var key := None;
      ghost var i := 0;
      ListedNone(t);
      while true
        invariant 0 <= i <= cap && slot[..] == t && Listed(t, i, seen)
        invariant if key.None? then i == 0 else key.name in r.place && i == r.place[key.name] + 1
        decreases cap - i
      {
        var next, value := Next(key);
        AfterListed(t, CalcHash, r, i, seen, next, value);
        if next.None? {
          ListedAll(t, CalcHash, r, seen);
          return;
        }
        seen := seen + [next.name];
        key := next;
        i := r.place[key.name] + 1;
      }
    }
  }

  datatype Option = None | Some(name: Name)

  ghost predicate NoneFrom(t: seq<Slot<Name>>, i: int, j: int)
  {
    forall k {:trigger t[k]} :: 0 <= i <= k < j && k < |t| ==> !(t[k].Slot? && t[k].value != 0)
  }

  /** next is the first entry from slot i on whose pointer is not NULL. */
  ghost predicate After(t: seq<Slot<Name>>, i: int, n: int, next: Option, value: int)
  {
    if next.None? then NoneFrom(t, i, n)
    else exists j :: i <= j < n && j < |t| && 0 <= j && t[j].Slot? && t[j].key == next.name && t[j].value == value != 0 && NoneFrom(t, i, j)
  }

  /** The names of the entries in the first i slots whose pointer is not NULL. */
  ghost predicate Listed(t: seq<Slot<Name>>, i: int, seen: seq<Name>)
  {
    && (forall j {:trigger t[j]} :: 0 <= j < i && j < |t| && t[j].Slot? && t[j].value != 0 ==> t[j].key in seen)
    && (forall k {:trigger k in seen} :: k in seen ==> exists j :: 0 <= j < i && j < |t| && t[j].Slot? && t[j].key == k && t[j].value != 0)
    && (forall a, b {:trigger seen[a], seen[b]} :: 0 <= a < b < |seen| ==> seen[a] != seen[b])
  }

  lemma ListedNone(t: seq<Slot<Name>>)
    ensures Listed(t, 0, [])
  {
  }

  lemma AfterListed(t: seq<Slot<Name>>, hash: Name -> nat, r: Index<Name>, i: int, seen: seq<Name>, next: Option, value: int)
    requires Good(t, hash, r) && 0 <= i <= |t| && Listed(t, i, seen) && After(t, i, |t|, next, value)
    ensures if next.None? then Listed(t, |t|, seen)
      else next.name in r.place && i <= r.place[next.name] < |t| && Listed(t, r.place[next.name] + 1, seen + [next.name])
  {
    hide Placed, LinkOk, Findable;
    if next.Some? {
      var j :| i <= j < |t| && t[j].Slot? && t[j].key == next.name && t[j].value == value != 0 && NoneFrom(t, i, j);
      WalkMeets(t, hash, r, j);
      hide Good;
      var s := seen + [next.name];
      forall k | k in s
        ensures exists l :: 0 <= l < j + 1 && l < |t| && t[l].Slot? && t[l].key == k && t[l].value != 0
      {
        if k in seen {
        } else {
          assert t[j].key == k;
        }
      }
      forall l | 0 <= l < j + 1 && t[l].Slot? && t[l].value != 0
        ensures t[l].key in s
      {
        assert l < i ==> t[l].key in seen;
      }
      assert next.name !in seen by {
        OnceListed(t, hash, r, i, seen, j);
      }
    }
  }

  lemma OnceListed(t: seq<Slot<Name>>, hash: Name -> nat, r: Index<Name>, i: int, seen: seq<Name>, j: int)
    requires Good(t, hash, r) && Listed(t, i, seen) && 0 <= i <= j < |t| && t[j].Slot?
    ensures t[j].key !in seen
  {
    hide Placed, LinkOk, Findable;
    WalkMeets(t, hash, r, j);
  }

  lemma ListedAll(t: seq<Slot<Name>>, hash: Name -> nat, r: Index<Name>, seen: seq<Name>)
    requires Good(t, hash, r) && Listed(t, |t|, seen)
    ensures forall k :: k in seen <==> k in Contents(t, r) && Contents(t, r)[k] != 0
    ensures forall i, j :: 0 <= i < j < |seen| ==> seen[i] != seen[j]
  {
    hide Placed, LinkOk, Findable;
    forall k
      ensures k in seen <==> k in Contents(t, r) && Contents(t, r)[k] != 0
    {
      if k in seen {
        var l :| 0 <= l < |t| && t[l].Slot? && t[l].key == k && t[l].value != 0;
        WalkMeets(t, hash, r, l);
      }
      if k in Contents(t, r) && Contents(t, r)[k] != 0 {
        assert t[r.place[k]].key == k;
      }
    }
  }

  /** i & (cap - 1), for a cap that is a power of two */
  function Round(i: nat, cap: nat): int
    requires cap > 0
  {
    i % cap
  }

  lemma RoundOn(i: nat, cap: nat)
    requires i < cap
    ensures Round(i + 1, cap) == if i + 1 == cap then 0 else i + 1
  {
  }

  lemma MapKeys(t: seq<Slot<Name>>, r: Index<Name>)
    ensures Contents(t, r).Keys == r.place.Keys
  {
  }
}
