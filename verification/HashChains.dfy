/**
 Coalesced chaining, as the three tables of map.c use it: a key sits in its home slot or, when that one is taken,
 in any free slot that is then linked in right after the home slot.
 */
module HashChains {
  /** A slot; Free is one that is still all zero. next is the slot that follows, plus 1, or 0. */
  datatype Slot<K> = Free | Slot(key: K, hash: nat, value: int, next: int)

  /**
   The used slots in one row that lists the chains one after the other, and the slot of each key. A chain never
   skips or jumps in the row: a slot's successor is the next one there.
   */
  datatype Index<K> = Index(order: seq<int>, at: map<int, int>, place: map<K, int>)

  ghost predicate Placed<K>(tab: seq<Slot<K>>, r: Index<K>)
  {
    && (forall i {:trigger r.order[i]} :: 0 <= i < |r.order| ==> r.order[i] in r.at && r.at[r.order[i]] == i)
    && (forall j {:trigger r.at[j]} :: j in r.at ==> 0 <= r.at[j] < |r.order| && r.order[r.at[j]] == j)
    && (forall j {:trigger j in r.at} :: j in r.at <==> 0 <= j < |tab| && tab[j].Slot?)
  }

  ghost predicate LinkOk<K>(tab: seq<Slot<K>>, r: Index<K>, i: int)
    requires Placed(tab, r) && 0 <= i < |r.order|
  {
    var j := r.order[i];
    j in r.at && (tab[j].next == 0 || (i + 1 < |r.order| && tab[j].next == r.order[i + 1] + 1))
  }

  /** From place p to place q of the row, one chain goes on. */
  ghost predicate Unbroken<K>(tab: seq<Slot<K>>, r: Index<K>, p: int, q: int)
    requires Placed(tab, r)
  {
    forall k {:trigger r.order[k]} :: 0 <= p <= k < q && k < |r.order| ==> r.order[k] in r.at && tab[r.order[k]].next != 0
  }

  /** The key in slot j can be found: its chain leads there from its home slot. */
  ghost predicate Findable<K>(tab: seq<Slot<K>>, r: Index<K>, j: int)
    requires Placed(tab, r) && j in r.at
  {
    var home := tab[j].hash % |tab|;
    home in r.at && r.at[home] <= r.at[j] && Unbroken(tab, r, r.at[home], r.at[j])
  }

  /** place names the slot of every key. */
  ghost predicate Keyed<K>(tab: seq<Slot<K>>, hash: K -> nat, r: Index<K>)
  {
    && (forall j {:trigger tab[j]} :: 0 <= j < |tab| && tab[j].Slot? ==>
      tab[j].hash == hash(tab[j].key) && tab[j].key in r.place && r.place[tab[j].key] == j)
    && (forall k {:trigger r.place[k]} :: k in r.place ==> 0 <= r.place[k] < |tab| && tab[r.place[k]].Slot? && tab[r.place[k]].key == k)
  }

  ghost predicate Good<K>(tab: seq<Slot<K>>, hash: K -> nat, r: Index<K>)
  {
    && |tab| > 0 && Placed(tab, r) && Keyed(tab, hash, r)
    && (forall i {:trigger LinkOk(tab, r, i)} :: 0 <= i < |r.order| ==> LinkOk(tab, r, i))
    && (forall j {:trigger Findable(tab, r, j)} :: j in r.at ==> Findable(tab, r, j))
  }

  /** The finite map the table stands for. */
  ghost function Contents<K>(tab: seq<Slot<K>>, r: Index<K>): map<K, int>
  {
    map k | k in r.place :: if 0 <= r.place[k] < |tab| && tab[r.place[k]].Slot? then tab[r.place[k]].value else 0
  }

  // ---------------------------------------------------------------- an empty table

  ghost function Nothing<K>(): Index<K>
  {
    Index([], map[], map[])
  }

  lemma EmptyGood<K>(tab: seq<Slot<K>>, hash: K -> nat)
    requires |tab| > 0 && forall j {:trigger tab[j]} :: 0 <= j < |tab| ==> tab[j] == Free
    ensures Good(tab, hash, Nothing<K>()) && Contents(tab, Nothing<K>()) == map[]
  {
  }

  // ---------------------------------------------------------------- a key that finds its home slot free

  ghost function Housed<K>(tab: seq<Slot<K>>, key: K, hash: nat, value: int, home: int): seq<Slot<K>>
    requires 0 <= home < |tab|
  {
    tab[home := Slot(key, hash, value, 0)]
  }

  ghost function HousedIndex<K>(r: Index<K>, key: K, home: int): Index<K>
  {
    Index(r.order + [home], r.at[home := |r.order|], r.place[key := home])
  }

  lemma HousedPlaced<K>(tab: seq<Slot<K>>, r: Index<K>, key: K, hash: nat, value: int, home: int)
    requires Placed(tab, r) && 0 <= home < |tab| && tab[home] == Free
    ensures Placed(Housed(tab, key, hash, value, home), HousedIndex(r, key, home)) && home !in r.at
  {
  }

  lemma HousedLink<K>(tab: seq<Slot<K>>, r: Index<K>, key: K, hash: nat, value: int, home: int, i: int)
    requires Placed(tab, r) && 0 <= home < |tab| && home !in r.at && 0 <= i <= |r.order|
    requires i < |r.order| ==> LinkOk(tab, r, i)
    requires Placed(Housed(tab, key, hash, value, home), HousedIndex(r, key, home))
    ensures LinkOk(Housed(tab, key, hash, value, home), HousedIndex(r, key, home), i)
  {
  }

  lemma HousedFindable<K>(tab: seq<Slot<K>>, r: Index<K>, key: K, hash: nat, value: int, home: int, j: int)
    requires Placed(tab, r) && 0 <= home < |tab| && home !in r.at && home == hash % |tab|
    requires j == home || (j in r.at && Findable(tab, r, j))
    requires Placed(Housed(tab, key, hash, value, home), HousedIndex(r, key, home))
    ensures j in HousedIndex(r, key, home).at && Findable(Housed(tab, key, hash, value, home), HousedIndex(r, key, home), j)
  {
  }

  lemma HousedKeyed<K>(tab: seq<Slot<K>>, hash: K -> nat, r: Index<K>, key: K, value: int, home: int)
    requires Keyed(tab, hash, r) && 0 <= home < |tab| && tab[home] == Free && key !in r.place
    ensures Keyed(Housed(tab, key, hash(key), value, home), hash, HousedIndex(r, key, home))
    ensures Contents(Housed(tab, key, hash(key), value, home), HousedIndex(r, key, home)) == Contents(tab, r)[key := value]
  {
  }

  lemma HousedGood<K>(tab: seq<Slot<K>>, hash: K -> nat, r: Index<K>, key: K, value: int, home: int)
    requires Good(tab, hash, r) && key !in r.place && home == hash(key) % |tab| && tab[home] == Free
    ensures var tab', r' := Housed(tab, key, hash(key), value, home), HousedIndex(r, key, home);
      Good(tab', hash, r') && Contents(tab', r') == Contents(tab, r)[key := value] && |r'.order| == |r.order| + 1
  {
    var tab', r' := Housed(tab, key, hash(key), value, home), HousedIndex(r, key, home);
    HousedPlaced(tab, r, key, hash(key), value, home);
    HousedKeyed(tab, hash, r, key, value, home);
    hide Placed, Keyed, Contents, LinkOk, Findable;
    forall i | 0 <= i < |r'.order|
      ensures LinkOk(tab', r', i)
    {
      HousedLink(tab, r, key, hash(key), value, home, i);
    }
    forall j | j in r'.at
      ensures Findable(tab', r', j)
    {
      HousedFindable(tab, r, key, hash(key), value, home, j);
    }
  }

  // ---------------------------------------------------------------- a key that finds its home slot taken

  /** The free slot x takes the key and follows the home slot; what followed that now follows x. */
  ghost function Chained<K>(tab: seq<Slot<K>>, key: K, hash: nat, value: int, home: int, x: int): seq<Slot<K>>
    requires 0 <= home < |tab| && 0 <= x < |tab| && tab[home].Slot?
  {
    tab[x := Slot(key, hash, value, tab[home].next)][home := tab[home].(next := x + 1)]
  }

  ghost function ChainedIndex<K>(r: Index<K>, key: K, home: int, x: int): Index<K>
    requires home in r.at && 0 <= r.at[home] < |r.order|
  {
    Index(Inserted(r.order, r.at[home], x), ShiftedAt(r.at, r.at[home], x), r.place[key := x])
  }

  /** x right after place p */
  ghost function Inserted(order: seq<int>, p: int, x: int): seq<int>
    requires 0 <= p < |order|
  {
    order[..p + 1] + [x] + order[p + 1..]
  }

  ghost function ShiftedAt(at: map<int, int>, p: int, x: int): map<int, int>
  {
    (map j | j in at :: Moved(at[j], p))[x := p + 1]
  }

  /** Places behind p move up by one. */
  ghost function Moved(i: int, p: int): int
  {
    if i > p then i + 1 else i
  }

  /** x is free, home is not. */
  ghost predicate CanChain<K>(tab: seq<Slot<K>>, r: Index<K>, home: int, x: int)
  {
    && Placed(tab, r) && 0 <= home < |tab| && 0 <= x < |tab| && tab[home].Slot? && tab[x] == Free
    && home in r.at && 0 <= r.at[home] < |r.order|
  }

  lemma ChainedPlaced<K>(tab: seq<Slot<K>>, r: Index<K>, key: K, hash: nat, value: int, home: int, x: int)
    requires CanChain(tab, r, home, x)
    ensures Placed(Chained(tab, key, hash, value, home, x), ChainedIndex(r, key, home, x)) && x !in r.at && r.order[r.at[home]] == home
  {
    var p := r.at[home];
    var tab', r' := Chained(tab, key, hash, value, home, x), ChainedIndex(r, key, home, x);
    hide Inserted, ShiftedAt;
    assert x !in r.at;
    ShiftedIs(r.at, p, x);
    forall i {:trigger r'.order[i]} | 0 <= i < |r'.order|
      ensures r'.order[i] in r'.at && r'.at[r'.order[i]] == i
    {
      InsertedOne(r.order, p, x, i);
      if i != p + 1 {
        assert r.at[r.order[if i <= p then i else i - 1]] == if i <= p then i else i - 1;
      }
    }
    forall j {:trigger r'.at[j]} | j in r'.at
      ensures 0 <= r'.at[j] < |r'.order| && r'.order[r'.at[j]] == j
    {
      InsertedOne(r.order, p, x, if j == x then p + 1 else Moved(r.at[j], p));
    }
  }

  lemma ShiftedIs(at: map<int, int>, p: int, x: int)
    requires x !in at
    ensures var m := ShiftedAt(at, p, x);
      m.Keys == at.Keys + {x} && m[x] == p + 1 && forall j {:trigger m[j]} {:trigger at[j]} :: j in at ==> m[j] == Moved(at[j], p)
  {
  }

  lemma ChainedLink<K>(tab: seq<Slot<K>>, r: Index<K>, key: K, hash: nat, value: int, home: int, x: int, i: int)
    requires CanChain(tab, r, home, x) && x !in r.at && r.order[r.at[home]] == home
    requires forall k {:trigger LinkOk(tab, r, k)} :: 0 <= k < |r.order| ==> LinkOk(tab, r, k)
    requires Placed(Chained(tab, key, hash, value, home, x), ChainedIndex(r, key, home, x))
    requires 0 <= i < |ChainedIndex(r, key, home, x).order|
    ensures LinkOk(Chained(tab, key, hash, value, home, x), ChainedIndex(r, key, home, x), i)
  {
    hide Inserted, ShiftedAt, Placed;
    var p := r.at[home];
    InsertedOne(r.order, p, x, p);
    InsertedOne(r.order, p, x, i);
    InsertedOne(r.order, p, x, if i < |r.order| then i + 1 else i);
    PlacedOne(tab, r, if i <= p then i else i - 1);
    if i <= p {
      assert LinkOk(tab, r, i);
    } else {
      assert LinkOk(tab, r, i - 1);
    }
    PlacedOne(Chained(tab, key, hash, value, home, x), ChainedIndex(r, key, home, x), i);
  }

  lemma InsertedOne(order: seq<int>, p: int, x: int, i: int)
    requires 0 <= p < |order| && 0 <= i <= |order|
    ensures |Inserted(order, p, x)| == |order| + 1
    ensures Inserted(order, p, x)[i] == if i <= p then order[i] else if i == p + 1 then x else order[i - 1]
  {
  }

  lemma PlacedOne<K>(tab: seq<Slot<K>>, r: Index<K>, i: int)
    requires Placed(tab, r) && 0 <= i < |r.order|
    ensures r.order[i] in r.at && r.at[r.order[i]] == i && 0 <= r.order[i] < |tab| && tab[r.order[i]].Slot?
  {
  }

  lemma ChainedNext<K>(tab: seq<Slot<K>>, r: Index<K>, key: K, hash: nat, value: int, home: int, x: int, j: int, k: int)
    requires CanChain(tab, r, home, x) && x !in r.at && r.order[r.at[home]] == home && home == hash % |tab|
    requires j == x || (j in r.at && Findable(tab, r, j))
    requires Placed(Chained(tab, key, hash, value, home, x), ChainedIndex(r, key, home, x))
    requires var r', h := ChainedIndex(r, key, home, x), (if j == x then hash else tab[j].hash) % |tab|;
      h in r'.at && j in r'.at && 0 <= r'.at[h] <= k < r'.at[j] && k < |r'.order|
    ensures var r' := ChainedIndex(r, key, home, x);
      r'.order[k] in r'.at && Chained(tab, key, hash, value, home, x)[r'.order[k]].next != 0
  {
    hide Inserted, ShiftedAt;
    var p := r.at[home];
    ShiftedIs(r.at, p, x);
    InsertedOne(r.order, p, x, k);
    PlacedOne(Chained(tab, key, hash, value, home, x), ChainedIndex(r, key, home, x), k);
    if j != x && k != p {
      PlacedOne(tab, r, if k <= p then k else k - 1);
    }
  }

  lemma ChainedFindable<K>(tab: seq<Slot<K>>, r: Index<K>, key: K, hash: nat, value: int, home: int, x: int, j: int)
    requires CanChain(tab, r, home, x) && x !in r.at && r.order[r.at[home]] == home && home == hash % |tab|
    requires j == x || (j in r.at && Findable(tab, r, j))
    requires Placed(Chained(tab, key, hash, value, home, x), ChainedIndex(r, key, home, x))
    ensures j in ChainedIndex(r, key, home, x).at && Findable(Chained(tab, key, hash, value, home, x), ChainedIndex(r, key, home, x), j)
  {
    hide Inserted, ShiftedAt;
    var p := r.at[home];
    ShiftedIs(r.at, p, x);
    var tab', r' := Chained(tab, key, hash, value, home, x), ChainedIndex(r, key, home, x);
    assert tab'[j].hash == if j == x then hash else tab[j].hash;
    var h := tab'[j].hash % |tab|;
    assert h in r'.at && r'.at[h] <= r'.at[j];
    forall k {:trigger r'.order[k]} | 0 <= r'.at[h] <= k < r'.at[j] && k < |r'.order|
      ensures r'.order[k] in r'.at && tab'[r'.order[k]].next != 0
    {
      ChainedNext(tab, r, key, hash, value, home, x, j, k);
    }
  }

  lemma ChainedKeyed<K>(tab: seq<Slot<K>>, hash: K -> nat, r: Index<K>, key: K, value: int, home: int, x: int)
    requires Keyed(tab, hash, r) && 0 <= home < |tab| && 0 <= x < |tab| && tab[home].Slot? && tab[x] == Free && key !in r.place
    requires home in r.at && 0 <= r.at[home] < |r.order|
    ensures Keyed(Chained(tab, key, hash(key), value, home, x), hash, ChainedIndex(r, key, home, x))
    ensures Contents(Chained(tab, key, hash(key), value, home, x), ChainedIndex(r, key, home, x)) == Contents(tab, r)[key := value]
  {
    hide Inserted, ShiftedAt;
  }

  lemma ChainedGood<K>(tab: seq<Slot<K>>, hash: K -> nat, r: Index<K>, key: K, value: int, home: int, x: int)
    requires Good(tab, hash, r) && key !in r.place && home == hash(key) % |tab| && CanChain(tab, r, home, x)
    ensures var tab', r' := Chained(tab, key, hash(key), value, home, x), ChainedIndex(r, key, home, x);
      Good(tab', hash, r') && Contents(tab', r') == Contents(tab, r)[key := value] && |r'.order| == |r.order| + 1
  {
    var tab', r' := Chained(tab, key, hash(key), value, home, x), ChainedIndex(r, key, home, x);
    ChainedPlaced(tab, r, key, hash(key), value, home, x);
    ChainedKeyed(tab, hash, r, key, value, home, x);
    hide Placed, Keyed, Contents, LinkOk, Findable;
    forall i | 0 <= i < |r'.order|
      ensures LinkOk(tab', r', i)
    {
      ChainedLink(tab, r, key, hash(key), value, home, x, i);
    }
    forall j | j in r'.at
      ensures Findable(tab', r', j)
    {
      ChainedFindable(tab, r, key, hash(key), value, home, x, j);
    }
  }

  // ---------------------------------------------------------------- looking a key up

  /** The walk from home has come to cur, and has not met the key before cur. */
  ghost predicate Walked<K>(tab: seq<Slot<K>>, hash: K -> nat, r: Index<K>, key: K, home: int, cur: int)
  {
    && Good(tab, hash, r) && cur in r.at && home in r.at && home == hash(key) % |tab| && r.at[home] <= r.at[cur]
    && Unbroken(tab, r, r.at[home], r.at[cur])
    && forall k {:trigger r.order[k]} :: r.at[home] <= k < r.at[cur] ==> r.order[k] in r.at && tab[r.order[k]].key != key
  }

  /** At the home slot: when it is free, no such key is there. */
  lemma WalkStart<K>(tab: seq<Slot<K>>, hash: K -> nat, r: Index<K>, key: K, home: int)
    requires Good(tab, hash, r) && home == hash(key) % |tab|
    ensures if tab[home].Slot? then Walked(tab, hash, r, key, home, home) else key !in r.place
  {
    if key in r.place {
      assert Findable(tab, r, r.place[key]);
    }
  }

  lemma WalkFacts<K>(tab: seq<Slot<K>>, hash: K -> nat, r: Index<K>, key: K, home: int, cur: int)
    requires Walked(tab, hash, r, key, home, cur)
    ensures Good(tab, hash, r) && 0 <= cur < |tab| && tab[cur].Slot? && cur in r.at && 0 <= r.at[cur] < |r.order|
  {
  }

  /** One slot on: the chain's end means that the key is not there. */
  lemma WalkOn<K>(tab: seq<Slot<K>>, hash: K -> nat, r: Index<K>, key: K, home: int, cur: int)
    requires Walked(tab, hash, r, key, home, cur) && tab[cur].key != key
    ensures if tab[cur].next == 0 then key !in r.place
      else var n := tab[cur].next - 1; n in r.at && Walked(tab, hash, r, key, home, n) && r.at[n] == r.at[cur] + 1 < |r.order|
  {
    hide Keyed;
    PlacedOne(tab, r, r.at[cur]);
    assert LinkOk(tab, r, r.at[cur]) && r.order[r.at[cur]] == cur;
    if tab[cur].next == 0 {
      if key in r.place {
        KeySlot(tab, hash, r, key);
        assert false;
      }
    } else {
      PlacedOne(tab, r, r.at[cur] + 1);
    }
  }

  lemma KeySlot<K>(tab: seq<Slot<K>>, hash: K -> nat, r: Index<K>, key: K)
    requires Good(tab, hash, r) && key in r.place
    ensures var j := r.place[key]; 0 <= j < |tab| && j in r.at && tab[j].Slot? && tab[j].key == key && tab[j].hash == hash(key) && Findable(tab, r, j)
    ensures r.order[r.at[r.place[key]]] == r.place[key]
  {
  }

  /** The slot where the walk meets the key is the key's slot. */
  lemma WalkMeets<K>(tab: seq<Slot<K>>, hash: K -> nat, r: Index<K>, j: int)
    requires Good(tab, hash, r) && 0 <= j < |tab| && tab[j].Slot?
    ensures tab[j].key in r.place && r.place[tab[j].key] == j && Contents(tab, r)[tab[j].key] == tab[j].value
    ensures tab[j].hash == hash(tab[j].key)
  {
  }

  /** The walk of the queries, from the home slot along next: the slot of the key, or -1. */
  method Lookup<K(==)>(slot: array<Slot<K>>, key: K, h: nat, ghost hash: K -> nat, ghost r: Index<K>) returns (at: int)
    requires Good(slot[..], hash, r) && h == hash(key)
    ensures if at == -1 then key !in r.place else 0 <= at < slot.Length && slot[at].Slot? && slot[at].key == key
  {
    hide Good, Walked;
    ghost var t := slot[..];
    NotEmpty(t, hash, r);
    var home := h % slot.Length;
    WalkStart(t, hash, r, key, home);
    if slot[home] == Free {
      return -1;
    }
    at := home;
    WalkFacts(t, hash, r, key, home, at);
    while true
      invariant Walked(t, hash, r, key, home, at) && at in r.at
      decreases |r.order| - r.at[at]
    {
      WalkFacts(t, hash, r, key, home, at);
      WalkMeets(t, hash, r, at);
      if slot[at].hash == h && slot[at].key == key {
        return;
      }
      WalkOn(t, hash, r, key, home, at);
      if slot[at].next == 0 {
        return -1;
      }
      at := slot[at].next - 1;
    }
  }

  lemma NotEmpty<K>(tab: seq<Slot<K>>, hash: K -> nat, r: Index<K>)
    requires Good(tab, hash, r)
    ensures |tab| > 0
  {
  }

  // ---------------------------------------------------------------- how many slots are used

  ghost function Used<K>(tab: seq<Slot<K>>): nat
  {
    if tab == [] then 0 else Used(tab[..|tab| - 1]) + if tab[|tab| - 1].Slot? then 1 else 0
  }

  lemma {:induction false} UsedBound<K>(tab: seq<Slot<K>>)
    ensures Used(tab) <= |tab|
    ensures Used(tab) == |tab| ==> forall j {:trigger tab[j]} :: 0 <= j < |tab| ==> tab[j].Slot?
  {
    if tab != [] {
      var t := tab[..|tab| - 1];
      UsedBound(t);
      forall j | 0 <= j < |tab| && Used(tab) == |tab|
        ensures tab[j].Slot?
      {
        assert j < |t| ==> t[j] == tab[j];
      }
    }
  }

  lemma {:induction false} SomeFree<K>(tab: seq<Slot<K>>) returns (x: int)
    requires Used(tab) < |tab|
    ensures 0 <= x < |tab| && tab[x] == Free
  {
    if tab[|tab| - 1] == Free {
      x := |tab| - 1;
    } else {
      x := SomeFree(tab[..|tab| - 1]);
    }
  }

  lemma {:induction false} UsedUpdate<K>(tab: seq<Slot<K>>, x: int, s: Slot<K>)
    requires 0 <= x < |tab| && s.Slot?
    ensures Used(tab[x := s]) == Used(tab) + if tab[x].Slot? then 0 else 1
  {
    var n := |tab| - 1;
    if x < n {
      UsedUpdate(tab[..n], x, s);
      assert tab[x := s][..n] == tab[..n][x := s];
    } else {
      assert tab[x := s][..n] == tab[..n];
    }
  }

  lemma {:induction false} NoneUsed<K>(tab: seq<Slot<K>>)
    requires forall j {:trigger tab[j]} :: 0 <= j < |tab| ==> tab[j] == Free
    ensures Used(tab) == 0
  {
    if tab != [] {
      NoneUsed(tab[..|tab| - 1]);
    }
  }

  // ---------------------------------------------------------------- moving all entries to another table

  /** The entries of the first i slots. */
  ghost function Front<K>(tab: seq<Slot<K>>, r: Index<K>, i: int): map<K, int>
    requires i <= |tab|
  {
    map k | k in r.place && 0 <= r.place[k] < i && tab[r.place[k]].Slot? :: tab[r.place[k]].value
  }

  lemma FrontMore<K>(tab: seq<Slot<K>>, hash: K -> nat, r: Index<K>, i: int)
    requires Good(tab, hash, r) && 0 <= i < |tab| && tab[i].Slot?
    ensures tab[i].key !in Front(tab, r, i) && Front(tab, r, i + 1) == Front(tab, r, i)[tab[i].key := tab[i].value]
    ensures tab[i].hash == hash(tab[i].key)
  {
  }

  lemma FrontAll<K>(tab: seq<Slot<K>>, hash: K -> nat, r: Index<K>)
    requires Good(tab, hash, r)
    ensures Front(tab, r, 0) == map[] && Front(tab, r, |tab|) == Contents(tab, r)
  {
  }

  // ---------------------------------------------------------------- filling a table to the last slot

  lemma HousedIs<K>(t: seq<Slot<K>>, r: Index<K>, key: K, hash: nat, value: int, home: int)
    requires 0 <= home < |t|
    ensures Housed(t, key, hash, value, home) == t[home := Slot(key, hash, value, 0)]
    ensures t[home] == Free ==> Used(Housed(t, key, hash, value, home)) == Used(t) + 1
    ensures HousedIndex(r, key, home).place == r.place[key := home]
  {
    UsedUpdate(t, home, Slot(key, hash, value, 0));
  }

  lemma MayChain<K>(t: seq<Slot<K>>, hash: K -> nat, r: Index<K>, home: int, x: int)
    requires Good(t, hash, r) && 0 <= home < |t| && t[home].Slot? && 0 <= x < |t| && t[x] == Free
    ensures CanChain(t, r, home, x)
  {
  }

  lemma ChainedIs<K>(t: seq<Slot<K>>, r: Index<K>, key: K, hash: nat, value: int, home: int, x: int)
    requires CanChain(t, r, home, x)
    ensures Chained(t, key, hash, value, home, x) == t[x := Slot(key, hash, value, t[home].next)][home := t[home].(next := x + 1)]
    ensures Used(Chained(t, key, hash, value, home, x)) == Used(t) + 1
    ensures ChainedIndex(r, key, home, x).place == r.place[key := x]
  {
    var s := Slot(key, hash, value, t[home].next);
    UsedUpdate(t, x, s);
    UsedUpdate(t[x := s], home, t[home].(next := x + 1));
  }

  /** Which slots before empty are taken: all. */
  ghost predicate TakenBefore<K>(tab: seq<Slot<K>>, empty: int)
  {
    forall j {:trigger tab[j]} :: 0 <= j < empty && j < |tab| ==> tab[j].Slot?
  }

  /**
   The loop body of _pbcM_si_new and _pbcM_ip_new_hash: the key goes into its home slot, or into the first free
   slot of all, which is found by a position that only moves up.
   */
  method Fill<K(==)>(slot: array<Slot<K>>, key: K, h: nat, value: int, empty: nat, ghost hash: K -> nat, ghost r: Index<K>)
    returns (empty': nat, ghost r': Index<K>)
    requires Good(slot[..], hash, r) && h == hash(key) && key !in r.place && Used(slot[..]) < slot.Length
    requires TakenBefore(slot[..], empty)
    modifies slot
    ensures Good(slot[..], hash, r') && Contents(slot[..], r') == Contents(old(slot[..]), r)[key := value]
    ensures r'.place.Keys == r.place.Keys + {key} && Used(slot[..]) == Used(old(slot[..])) + 1 && TakenBefore(slot[..], empty')
  {
    hide Good, Used, Contents, Chained, ChainedIndex, Housed, HousedIndex;
    ghost var t := slot[..];
    NotEmpty(t, hash, r);
    ghost var x := SomeFree(t);
    var home := h % slot.Length;
    empty' := empty;
    if slot[home] == Free {
      HousedGood(t, hash, r, key, value, home);
      HousedIs(t, r, key, h, value, home);
      slot[home] := Slot(key, h, value, 0);
      r' := HousedIndex(r, key, home);
      assert slot[..] == Housed(t, key, h, value, home);
    } else {
      assert t[x] == Free;
      while slot[empty'].Slot?
        invariant empty' <= x && TakenBefore(t, empty')
        decreases x - empty'
      {
        empty' := empty' + 1;
      }
      MayChain(t, hash, r, home, empty');
      ChainedGood(t, hash, r, key, value, home, empty');
      ChainedIs(t, r, key, h, value, home, empty');
      slot[empty'] := Slot(key, h, value, slot[home].next);
      slot[home] := slot[home].(next := empty' + 1);
      r' := ChainedIndex(r, key, home, empty');
      assert slot[..] == Chained(t, key, h, value, home, empty');
    }
  }
}
