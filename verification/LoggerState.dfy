/** The steps of the logger on values: who holds which buffer, what the buffers contain, and what has been written. */
module LoggerState {
  const LOG_BUFFER_SIZE: int := 4 * 1024 * 1024

  type Byte = b: int | 0 <= b < 256

  /** struct buffer; size is |data| */
  class Buffer {
    var next: Buffer?
    var data: seq<Byte>

    /** calloc */
    constructor ()
      ensures next == null && data == []
    {
      next, data := null, [];
    }
  }

  datatype Node = Node(next: Buffer?, data: seq<Byte>)

  /** The buffers are what the image says. */
  ghost predicate Mirrors(image: map<Buffer, Node>)
    reads image.Keys
  {
    forall b {:trigger image[b]} {:trigger b in image} :: b in image ==> b.next == image[b].next && b.data == image[b].data
  }

  /** b->next = to */
  method SetNext(b: Buffer, to: Buffer?, ghost image: map<Buffer, Node>)
    requires Mirrors(image) && b in image
    modifies b`next
    ensures b.next == to && Mirrors(image[b := Node(to, image[b].data)])
  {
    b.next := to;
  }

  lemma MirrorsMore(image: map<Buffer, Node>, b: Buffer)
    requires Mirrors(image)
    ensures Mirrors(image[b := Node(b.next, b.data)])
  {
  }

  lemma SameNode(image: map<Buffer, Node>, b: Buffer)
    requires b in image
    ensures image[b := image[b]] == image
  {
  }

  /** Who holds a buffer: the logger's fields, its queue, the worker's list, the worker's two empty buffers. */
  datatype Role = Current | Spare | Queued(i: nat) | Working(i: nat) | First | Second

  /** Where the worker is. */
  datatype Phase = Starting | Idle | Collected | Dropping | Writing | Written

  /**
   curr and spare are curr_buffer and next_buffer, queue is what buffers links, work what buffers_to_write links,
   with done of it written. role and image have all buffers that are allocated and not freed.
   */
  datatype State = State(curr: Buffer, spare: Buffer?, new1: Buffer?, new2: Buffer?, queue: seq<Buffer>, work: seq<Buffer>,
                         role: map<Buffer, Role>, image: map<Buffer, Node>, phase: Phase, done: nat,
                         file: seq<Byte>, accepted: seq<Byte>, kept: seq<Byte>, dropped: bool)

  ghost predicate Holds(s: State, b: Buffer?, r: Role)
  {
    b != null && b in s.role && s.role[b] == r
  }

  /** Every field and every place in a list holds its own buffer, and every buffer is held: none is shared, none lost. */
  ghost predicate Owned(s: State)
  {
    && Holds(s, s.curr, Current) && (s.spare != null ==> Holds(s, s.spare, Spare))
    && (s.new1 != null ==> Holds(s, s.new1, First)) && (s.new2 != null ==> Holds(s, s.new2, Second))
    && (forall i {:trigger s.queue[i]} :: 0 <= i < |s.queue| ==> Holds(s, s.queue[i], Queued(i)))
    && (forall i {:trigger s.work[i]} :: 0 <= i < |s.work| ==> Holds(s, s.work[i], Working(i)))
    && (forall b {:trigger s.role[b]} :: b in s.role ==> Held(s, b, s.role[b]))
  }

  ghost predicate Held(s: State, b: Buffer, r: Role)
  {
    match r
    case Current => b == s.curr
    case Spare => b == s.spare
    case Queued(i) => i < |s.queue| && s.queue[i] == b
    case Working(i) => i < |s.work| && s.work[i] == b
    case First => b == s.new1
    case Second => b == s.new2
  }

  /** What a buffer's next is: the queue runs into the current buffer, the worker's list ends. */
  ghost function NextOf(s: State, r: Role): Buffer?
  {
    match r
    case Queued(i) => if i + 1 < |s.queue| then s.queue[i + 1] else s.curr
    case Working(i) => if i + 1 < |s.work| then s.work[i + 1] else null
    case _ => null
  }

  ghost predicate Shaped(s: State, b: Buffer)
    requires b in s.role && b in s.image
  {
    && s.image[b].next == NextOf(s, s.role[b]) && |s.image[b].data| <= LOG_BUFFER_SIZE
    && (s.role[b] in {Spare, First, Second} ==> s.image[b].data == [])
  }

  ghost predicate Linked(s: State)
  {
    && s.role.Keys == s.image.Keys
    && forall b {:trigger s.image[b]} :: b in s.image ==> Shaped(s, b)
  }

  /** A missing spare means that something is queued; what the worker holds in each phase. */
  ghost predicate Phased(s: State)
  {
    && (s.spare == null ==> s.queue != []) && s.done <= |s.work|
    && (s.phase != Writing ==> s.done == if s.phase == Written then |s.work| else 0)
    && (s.phase == Dropping ==> |s.work| > 25)
    && match s.phase
      case Starting => s.work == [] && s.new1 == null && s.new2 == null
      case Idle => s.work == [] && s.new1 != null && s.new2 != null
      case _ => s.work != [] && s.new1 == null && (s.new2 == null ==> |s.work| >= 2)
  }

  /** The bytes of a row of buffers. */
  ghost function Content(image: map<Buffer, Node>, row: seq<Buffer>): seq<Byte>
  {
    if row == [] then [] else (if row[0] in image then image[row[0]].data else []) + Content(image, row[1..])
  }

  /** All bytes there are, in the order in which they were appended: file, worker's list, queue, current buffer. */
  ghost function Everything(s: State): seq<Byte>
    requires s.done <= |s.work| && s.curr in s.image
  {
    s.file + Content(s.image, s.work[s.done..]) + Content(s.image, s.queue) + s.image[s.curr].data
  }

  ghost predicate Inv(s: State)
  {
    && Owned(s) && Linked(s) && Phased(s) && (!s.dropped ==> s.kept == s.accepted)
    && s.kept == Everything(s)
  }

  lemma {:induction false} ContentJoin(image: map<Buffer, Node>, a: seq<Buffer>, b: seq<Buffer>)
    ensures Content(image, a + b) == Content(image, a) + Content(image, b)
  {
    if a == [] {
      assert a + b == b;
    } else {
      ContentJoin(image, a[1..], b);
      assert (a + b)[1..] == a[1..] + b && (a + b)[0] == a[0];
    }
  }

  lemma {:induction false} ContentFrame(image: map<Buffer, Node>, image': map<Buffer, Node>, row: seq<Buffer>)
    requires forall i {:trigger row[i]} :: 0 <= i < |row| ==> row[i] in image && row[i] in image' && image'[row[i]].data == image[row[i]].data
    ensures Content(image', row) == Content(image, row)
  {
    if row != [] {
      forall i | 0 <= i < |row[1..]|
        ensures row[1..][i] == row[i + 1]
      {
      }
      ContentFrame(image, image', row[1..]);
    }
  }

  // ---------------------------------------------------------------- append

  /** The current buffer goes to the end of the queue, and b takes its place. */
  ghost function Enqueued(s: State, b: Buffer): State
    requires s.curr in s.image
  {
    s.(queue := s.queue + [s.curr], role := s.role[s.curr := Queued(|s.queue|)][b := Current],
       image := s.image[s.curr := Node(b, s.image[s.curr].data)][b := Node(null, [])], curr := b, spare := null)
  }

  /** b may become the current buffer: the spare one, or a new one when there is no spare. */
  ghost predicate Next(s: State, b: Buffer)
  {
    s.curr in s.image && if s.spare == null then b !in s.role else b == s.spare
  }

  lemma EnqueuedInv(s: State, b: Buffer)
    requires Inv(s) && Next(s, b)
    ensures s.curr in s.image && Inv(Enqueued(s, b)) && b != s.curr && Enqueued(s, b).role.Keys == s.role.Keys + {b}
    ensures b in Enqueued(s, b).image && Enqueued(s, b).image[b] == Node(null, []) && Enqueued(s, b).curr == b
    ensures Enqueued(s, b).image.Keys == s.image.Keys + {b}
  {
    hide Linked, Everything, Content;
    assert Holds(s, s.curr, Current);
    EnqueuedOwned(s, b);
    EnqueuedLinked(s, b);
    EnqueuedContent(s, b);
  }

  lemma EnqueuedOwned(s: State, b: Buffer)
    requires Owned(s) && Next(s, b)
    ensures Owned(Enqueued(s, b))
  {
    var s' := Enqueued(s, b);
    forall c | c in s'.role
      ensures Held(s', c, s'.role[c])
    {
      if c != s.curr && c != b {
        assert Held(s, c, s.role[c]);
      }
    }
  }

  lemma EnqueuedLinked(s: State, b: Buffer)
    requires Owned(s) && Linked(s) && Next(s, b)
    ensures Linked(Enqueued(s, b))
  {
    var s' := Enqueued(s, b);
    forall c | c in s'.image
      ensures Shaped(s', c)
    {
      EnqueuedShaped(s, b, c);
    }
  }

  lemma EnqueuedShaped(s: State, b: Buffer, c: Buffer)
    requires Owned(s) && Linked(s) && Next(s, b) && c in Enqueued(s, b).image
    ensures c in Enqueued(s, b).role && Shaped(Enqueued(s, b), c)
  {
    if c != s.curr && c != b {
      assert Shaped(s, c) && Held(s, c, s.role[c]);
    } else {
      assert Shaped(s, s.curr);
    }
  }

  /** Queue and worker's list have neither the current buffer nor the next one, and all they have is there. */
  lemma RowsApart(s: State, b: Buffer)
    requires Owned(s) && Linked(s) && Next(s, b)
    ensures forall i {:trigger s.queue[i]} :: 0 <= i < |s.queue| ==> s.queue[i] in s.image && s.queue[i] != s.curr && s.queue[i] != b
    ensures forall i {:trigger s.work[i]} :: 0 <= i < |s.work| ==> s.work[i] in s.image && s.work[i] != s.curr && s.work[i] != b
    ensures b != s.curr
  {
  }

  lemma EnqueuedContent(s: State, b: Buffer)
    requires Owned(s) && Linked(s) && Next(s, b) && s.done <= |s.work|
    ensures Everything(Enqueued(s, b)) == Everything(s)
  {
    RowsApart(s, b);
    hide Owned, Linked, Next;
    var s' := Enqueued(s, b);
    ContentFrame(s.image, s'.image, s.work[s.done..]);
    ContentFrame(s.image, s'.image, s.queue);
    ContentJoin(s'.image, s.queue, [s.curr]);
    ContentOne(s'.image, s.curr);
    var f, w, q, c := s.file, Content(s.image, s.work[s.done..]), Content(s.image, s.queue), s.image[s.curr].data;
    Regroup(f, w, q, c);
  }

  lemma ContentOne(image: map<Buffer, Node>, b: Buffer)
    requires b in image
    ensures Content(image, [b]) == image[b].data
  {
    assert Content(image, [b]) == image[b].data + Content(image, []);
  }

  /** A line put at the end of the current buffer. */
  ghost function Appended(s: State, line: seq<Byte>): State
    requires s.curr in s.image
  {
    s.(image := s.image[s.curr := s.image[s.curr].(data := s.image[s.curr].data + line)],
       accepted := s.accepted + line, kept := s.kept + line)
  }

  lemma AppendedInv(s: State, line: seq<Byte>)
    requires Inv(s) && s.curr in s.image && |s.image[s.curr].data + line| <= LOG_BUFFER_SIZE
    ensures Inv(Appended(s, line)) && Appended(s, line).role == s.role
  {
    hide Shaped, Everything, Held, Holds;
    AppendedLinked(s, line);
    AppendedContent(s, line);
    AppendedOwned(s, line);
  }

  lemma AppendedOwned(s: State, line: seq<Byte>)
    requires Owned(s) && s.curr in s.image
    ensures Owned(Appended(s, line))
  {
    var s' := Appended(s, line);
    forall c | c in s'.role
      ensures Held(s', c, s'.role[c])
    {
      assert Held(s, c, s.role[c]);
    }
  }

  lemma AppendedLinked(s: State, line: seq<Byte>)
    requires Owned(s) && Linked(s) && s.curr in s.image && |s.image[s.curr].data + line| <= LOG_BUFFER_SIZE
    ensures Linked(Appended(s, line))
  {
    var s' := Appended(s, line);
    forall c | c in s'.image
      ensures Shaped(s', c)
    {
      assert Shaped(s, c);
    }
  }

  lemma AppendedContent(s: State, line: seq<Byte>)
    requires Owned(s) && Linked(s) && s.curr in s.image && s.done <= |s.work|
    ensures Everything(Appended(s, line)) == Everything(s) + line
  {
    RowsHere(s);
    hide Owned, Linked;
    var s' := Appended(s, line);
    ContentFrame(s.image, s'.image, s.work[s.done..]);
    ContentFrame(s.image, s'.image, s.queue);
    var p, c := s.file + Content(s.image, s.work[s.done..]) + Content(s.image, s.queue), s.image[s.curr].data;
    assert p + (c + line) == (p + c) + line;
  }

  lemma RowsHere(s: State)
    requires Owned(s) && Linked(s)
    ensures forall i {:trigger s.queue[i]} :: 0 <= i < |s.queue| ==> s.queue[i] in s.image && s.queue[i] != s.curr
    ensures forall i {:trigger s.work[i]} :: 0 <= i < |s.work| ==> s.work[i] in s.image && s.work[i] != s.curr
    ensures s.curr in s.image
  {
  }

  // ---------------------------------------------------------------- the worker

  /** The worker allocates its two empty buffers. */
  ghost function Started(s: State, a: Buffer, b: Buffer): State
  {
    s.(new1 := a, new2 := b, role := s.role[a := First][b := Second],
       image := s.image[a := Node(null, [])][b := Node(null, [])], phase := Idle)
  }

  lemma StartedInv(s: State, a: Buffer, b: Buffer)
    requires Inv(s) && s.phase == Starting && a !in s.role && b !in s.role && a != b
    ensures Inv(Started(s, a, b)) && Same(s, Started(s, a, b)) && Started(s, a, b).phase == Idle
    ensures Started(s, a, b).role.Keys == s.role.Keys + {a, b} == Started(s, a, b).image.Keys
  {
    var s' := Started(s, a, b);
    StartedOwned(s, a, b);
    RowsHere(s);
    hide Owned, Linked;
    ContentFrame(s.image, s'.image, s.work[s.done..]);
    ContentFrame(s.image, s'.image, s.queue);
  }

  lemma StartedOwned(s: State, a: Buffer, b: Buffer)
    requires Owned(s) && Linked(s) && Phased(s) && s.phase == Starting && a !in s.role && b !in s.role && a != b
    ensures Owned(Started(s, a, b)) && Linked(Started(s, a, b)) && a != s.curr && b != s.curr
  {
    var s' := Started(s, a, b);
    forall c | c in s'.role
      ensures Held(s', c, s'.role[c]) && Shaped(s', c)
    {
      if c != a && c != b {
        assert Held(s, c, s.role[c]) && Shaped(s, c);
      }
    }
  }

  /** What a role becomes when the worker takes the queue and the current buffer, and hands over its first buffer. */
  ghost function Taken(s: State, r: Role): Role
  {
    match r
    case Queued(i) => Working(i)
    case Current => Working(|s.queue|)
    case First => Current
    case Second => if s.spare == null then Spare else Second
    case r => r
  }

  /** The worker's critical section. No buffer changes: the queue already runs into the current buffer. */
  ghost function Swapped(s: State): State
    requires s.new1 != null
  {
    s.(work := s.queue + [s.curr], queue := [], curr := s.new1, new1 := null, done := 0,
       spare := if s.spare == null then s.new2 else s.spare, new2 := if s.spare == null then null else s.new2,
       role := map b | b in s.role :: Taken(s, s.role[b]), phase := Collected)
  }

  lemma SwappedInv(s: State)
    requires Inv(s) && s.phase == Idle
    ensures Inv(Swapped(s))
  {
    hide Everything, Shaped, Held, Holds;
    SwappedOwned(s);
    SwappedLinked(s);
    SwappedContent(s);
  }

  lemma SwappedOwned(s: State)
    requires Owned(s) && Phased(s) && s.phase == Idle
    ensures Owned(Swapped(s))
  {
    var s' := Swapped(s);
    forall c | c in s'.role
      ensures Held(s', c, s'.role[c])
    {
      assert Held(s, c, s.role[c]);
    }
    forall i | 0 <= i < |s'.work|
      ensures Holds(s', s'.work[i], Working(i))
    {
      assert i < |s.queue| ==> Holds(s, s.queue[i], Queued(i));
    }
  }

  lemma SwappedLinked(s: State)
    requires Owned(s) && Linked(s) && Phased(s) && s.phase == Idle
    ensures Linked(Swapped(s))
  {
    hide Shaped, Taken, Held;
    forall c | c in s.image
      ensures Shaped(Swapped(s), c)
    {
      assert Shaped(s, c) && Held(s, c, s.role[c]);
      SwappedShaped(s, c);
    }
  }

  lemma SwappedShaped(s: State, c: Buffer)
    requires c in s.role && c in s.image && Shaped(s, c) && Held(s, c, s.role[c]) && s.phase == Idle && Phased(s)
    ensures c in Swapped(s).role && Shaped(Swapped(s), c)
  {
    hide NextOf, Taken, Held, Phased;
    NextKept(s, c);
    TakenRole(s, c);
    assert Swapped(s).role[c] == Taken(s, s.role[c]);
  }

  lemma TakenRole(s: State, c: Buffer)
    requires c in s.role && Held(s, c, s.role[c]) && s.phase == Idle && Phased(s)
    ensures Taken(s, s.role[c]) in {Spare, First, Second} ==> s.role[c] in {Spare, First, Second}
  {
  }

  /** The links of the queue are the links of the worker's list. */
  lemma NextKept(s: State, c: Buffer)
    requires c in s.role && Held(s, c, s.role[c]) && s.phase == Idle && Phased(s)
    ensures NextOf(Swapped(s), Taken(s, s.role[c])) == NextOf(s, s.role[c])
  {
    var w := s.queue + [s.curr];
    assert Swapped(s).work == w;
  }

  lemma SwapHolds(s: State)
    requires Owned(s) && Linked(s) && Phased(s) && s.phase == Idle
    ensures s.curr in s.image && s.new1 in s.image && s.image[s.new1].data == []
    ensures s.work == [] && s.done == 0
  {
    assert Holds(s, s.new1, First) && Shaped(s, s.new1) && Holds(s, s.curr, Current);
  }

  lemma SwappedContent(s: State)
    requires Owned(s) && Linked(s) && Phased(s) && s.phase == Idle
    ensures Swapped(s).curr in s.image && s.curr in s.image && Everything(Swapped(s)) == Everything(s)
  {
    hide Owned, Linked, Content;
    SwapHolds(s);
    ContentJoin(s.image, s.queue, [s.curr]);
    ContentOne(s.image, s.curr);
    ContentNone(s.image);
    assert s.work[s.done..] == [];
    var w := s.queue + [s.curr];
    assert w[0..] == w;
    var f, q, c := s.file, Content(s.image, s.queue), s.image[s.curr].data;
    assert f + (q + c) + [] + [] == f + [] + q + c;
  }

  lemma ContentNone(image: map<Buffer, Node>)
    ensures Content(image, []) == []
  {
  }

  /** Only the first two buffers of the worker's list stay. */
  predicate Stays(r: Role)
  {
    !(r.Working? && r.i >= 2)
  }

  ghost function Dropped(s: State): State
    requires |s.work| > 2 && s.curr in s.image && s.role.Keys == s.image.Keys
  {
    var s' := s.(work := s.work[..2], role := map b | b in s.role && Stays(s.role[b]) :: s.role[b],
                 image := map b | b in s.role && Stays(s.role[b]) :: if b == s.work[1] then Node(null, s.image[b].data) else s.image[b],
                 phase := Writing, dropped := true);
    s'.(kept := s.file + Content(s.image, s.work[..2]) + (Content(s.image, s.queue) + s.image[s.curr].data))
  }

  /** What a drop takes is a row of whole buffers, all after the first two; the rest stays in order. */
  lemma DroppedExactly(s: State)
    requires Inv(s) && s.phase == Dropping
    ensures s.curr in s.image && Dropped(s).accepted == s.accepted
    ensures var before := s.file + Content(s.image, s.work[..2]);
      var after := Content(s.image, s.queue) + s.image[s.curr].data;
      s.kept == before + Content(s.image, s.work[2..]) + after && Dropped(s).kept == before + after
  {
    hide Owned, Linked, Content;
    RowsHere(s);
    assert s.work[s.done..] == s.work && s.work == s.work[..2] + s.work[2..];
    ContentJoin(s.image, s.work[..2], s.work[2..]);
    var f, a, d, q, c := s.file, Content(s.image, s.work[..2]), Content(s.image, s.work[2..]), Content(s.image, s.queue), s.image[s.curr].data;
    assert f + (a + d) + q + c == f + a + d + (q + c);
  }

  lemma DroppedInv(s: State)
    requires Inv(s) && s.phase == Dropping
    ensures s.curr in s.image && Inv(Dropped(s))
  {
    RowsHere(s);
    hide Shaped, Held, Holds, Content;
    DroppedOwned(s);
    DroppedLinked(s);
    DroppedContent(s);
  }

  lemma DroppedOwned(s: State)
    requires Owned(s) && Linked(s) && s.curr in s.image && |s.work| > 2
    ensures Owned(Dropped(s))
  {
    var s' := Dropped(s);
    forall c | c in s'.role
      ensures Held(s', c, s'.role[c])
    {
      assert Held(s, c, s.role[c]);
    }
    forall i | 0 <= i < |s'.work|
      ensures Holds(s', s'.work[i], Working(i))
    {
      assert Holds(s, s.work[i], Working(i));
    }
  }

  lemma DroppedLinked(s: State)
    requires Owned(s) && Linked(s) && s.curr in s.image && |s.work| > 2
    ensures Linked(Dropped(s))
  {
    hide Shaped, Held, Holds;
    forall c | c in Dropped(s).image
      ensures Shaped(Dropped(s), c)
    {
      assert Shaped(s, c) && Held(s, c, s.role[c]) && Holds(s, s.work[1], Working(1));
      DroppedShaped(s, c);
    }
  }

  lemma DroppedShaped(s: State, c: Buffer)
    requires s.role.Keys == s.image.Keys && s.curr in s.image && |s.work| > 2 && c in Dropped(s).image
    requires c in s.image && Shaped(s, c) && Held(s, c, s.role[c]) && Holds(s, s.work[1], Working(1))
    ensures c in Dropped(s).role && Shaped(Dropped(s), c)
  {
    hide Content;
  }

  lemma DroppedContent(s: State)
    requires Owned(s) && Linked(s) && Phased(s) && s.phase == Dropping && s.curr in s.image
    ensures s.curr in Dropped(s).image && Everything(Dropped(s)) == Dropped(s).kept
  {
    var s' := Dropped(s);
    DroppedRows(s);
    RowsHere(s);
    hide Owned, Linked, Content;
    ContentFrame(s.image, s'.image, s.work[..2]);
    ContentFrame(s.image, s'.image, s.queue);
    assert s'.work[s'.done..] == s.work[..2];
    var f, a, q, c := s.file, Content(s.image, s.work[..2]), Content(s.image, s.queue), s.image[s.curr].data;
    Regroup(f, a, q, c);
  }

  lemma Regroup(f: seq<Byte>, a: seq<Byte>, q: seq<Byte>, c: seq<Byte>)
    ensures f + a + q + c == f + a + (q + c) && f + a + (q + c) + [] == f + a + q + c
  {
  }

  lemma DroppedRows(s: State)
    requires Owned(s) && Linked(s) && |s.work| > 2 && s.curr in s.image
    ensures var g := Dropped(s).image;
      && (forall i {:trigger s.queue[i]} :: 0 <= i < |s.queue| ==> s.queue[i] in s.image && s.queue[i] in g && g[s.queue[i]].data == s.image[s.queue[i]].data)
      && (forall i {:trigger s.work[i]} :: 0 <= i < 2 ==> s.work[i] in s.image && s.work[i] in g && g[s.work[i]].data == s.image[s.work[i]].data)
      && s.curr in g && g[s.curr] == s.image[s.curr]
  {
    hide Content;
    assert Holds(s, s.curr, Current) && Holds(s, s.work[1], Working(1));
    forall i | 0 <= i < |s.queue|
      ensures s.queue[i] in Dropped(s).image
    {
      assert Holds(s, s.queue[i], Queued(i));
    }
    forall i | 0 <= i < 2
      ensures s.work[i] in Dropped(s).image
    {
      assert Holds(s, s.work[i], Working(i));
    }
  }

  /** One buffer is written to the file. */
  ghost function Wrote(s: State): State
    requires s.done < |s.work| && s.work[s.done] in s.image
  {
    s.(file := s.file + s.image[s.work[s.done]].data, done := s.done + 1)
  }

  lemma WroteInv(s: State)
    requires Inv(s) && s.phase == Writing && s.done < |s.work|
    ensures s.work[s.done] in s.image && Inv(Wrote(s))
  {
    hide Owned, Linked, Content;
    RowsHere(s);
    WroteOwned(s);
    WroteContent(s);
  }

  lemma WroteContent(s: State)
    requires s.done < |s.work| && s.work[s.done] in s.image && s.curr in s.image
    ensures Everything(Wrote(s)) == Everything(s)
  {
    var w := s.work[s.done..];
    assert w[0] == s.work[s.done] && w[1..] == s.work[s.done + 1..];
    assert Content(s.image, w) == s.image[w[0]].data + Content(s.image, w[1..]);
    hide Content;
    var f, d, r := s.file, s.image[s.work[s.done]].data, Content(s.image, s.work[s.done + 1..]);
    assert f + (d + r) == (f + d) + r;
  }

  lemma WroteOwned(s: State)
    requires Owned(s) && Linked(s) && s.done < |s.work| && s.work[s.done] in s.image
    ensures Owned(Wrote(s)) && Linked(Wrote(s))
  {
    var s' := Wrote(s);
    forall c | c in s'.role
      ensures Held(s', c, s'.role[c]) && Shaped(s', c)
    {
      assert Held(s, c, s.role[c]) && Shaped(s, c);
    }
  }

  /** Which buffers the worker keeps for the next round: one or two of those it has written. */
  ghost predicate Reused(s: State, r: Role)
  {
    !r.Working? || r.i == 0 || (r.i == 1 && s.new2 == null)
  }

  ghost function Recast(r: Role): Role
  {
    if r == Working(0) then First else if r == Working(1) then Second else r
  }

  ghost function Recycled(s: State): State
    requires s.role.Keys == s.image.Keys && s.work != [] && (s.new2 == null ==> |s.work| >= 2)
  {
    s.(new1 := s.work[0], new2 := if s.new2 == null then s.work[1] else s.new2, work := [], done := 0, phase := Idle,
       role := map b | b in s.role && Reused(s, s.role[b]) :: Recast(s.role[b]),
       image := map b | b in s.role && Reused(s, s.role[b]) :: if s.role[b].Working? then Node(null, []) else s.image[b])
  }

  lemma RecycledInv(s: State)
    requires Inv(s) && s.phase == Written
    ensures s.role.Keys == s.image.Keys && s.work != [] && (s.new2 == null ==> |s.work| >= 2)
    ensures Inv(Recycled(s))
  {
    RowsHere(s);
    hide Shaped, Held, Holds, Content;
    RecycledOwned(s);
    RecycledLinked(s);
    RecycledContent(s);
  }

  lemma RecycledHeld(s: State, c: Buffer)
    requires Owned(s) && s.role.Keys == s.image.Keys && s.work != [] && s.new1 == null && (s.new2 == null ==> |s.work| >= 2)
    requires c in Recycled(s).role
    ensures Held(Recycled(s), c, Recycled(s).role[c])
  {
    assert Held(s, c, s.role[c]);
  }

  lemma RecycledOwned(s: State)
    requires Owned(s) && s.role.Keys == s.image.Keys && s.work != [] && s.new1 == null && (s.new2 == null ==> |s.work| >= 2)
    ensures Owned(Recycled(s))
  {
    hide Held;
    assert Holds(s, s.work[0], Working(0)) && (s.new2 == null ==> Holds(s, s.work[1], Working(1)));
    var s' := Recycled(s);
    forall c | c in s'.role
      ensures Held(s', c, s'.role[c])
    {
      RecycledHeld(s, c);
    }
    forall i | 0 <= i < |s'.queue|
      ensures Holds(s', s'.queue[i], Queued(i))
    {
      assert Holds(s, s.queue[i], Queued(i));
    }
  }

  lemma RecycledLinked(s: State)
    requires Owned(s) && Linked(s) && s.work != [] && s.new1 == null && (s.new2 == null ==> |s.work| >= 2)
    ensures Linked(Recycled(s))
  {
    hide Shaped, Held, Holds;
    forall c | c in Recycled(s).image
      ensures Shaped(Recycled(s), c)
    {
      assert Shaped(s, c) && Held(s, c, s.role[c]);
      RecycledShaped(s, c);
    }
  }

  lemma RecycledShaped(s: State, c: Buffer)
    requires s.role.Keys == s.image.Keys && s.work != [] && s.new1 == null && (s.new2 == null ==> |s.work| >= 2)
    requires c in Recycled(s).image && c in s.image && Shaped(s, c) && Held(s, c, s.role[c])
    ensures c in Recycled(s).role && Shaped(Recycled(s), c)
  {
  }

  lemma RecycledContent(s: State)
    requires Owned(s) && Linked(s) && Phased(s) && s.phase == Written && s.curr in s.image
    ensures s.curr in Recycled(s).image && Everything(Recycled(s)) == Everything(s)
  {
    var s' := Recycled(s);
    assert Holds(s, s.curr, Current);
    RecycledRows(s);
    RowsHere(s);
    hide Owned, Linked, Content;
    ContentFrame(s.image, s'.image, s.queue);
    assert s.work[s.done..] == [] && s'.work[s'.done..] == [];
  }

  lemma RecycledRows(s: State)
    requires Owned(s) && Linked(s) && s.work != [] && (s.new2 == null ==> |s.work| >= 2)
    ensures var g := Recycled(s).image;
      && (forall i {:trigger s.queue[i]} :: 0 <= i < |s.queue| ==> s.queue[i] in s.image && s.queue[i] in g && g[s.queue[i]] == s.image[s.queue[i]])
      && s.curr in g && s.curr in s.image && g[s.curr] == s.image[s.curr]
  {
    assert Holds(s, s.curr, Current);
    forall i | 0 <= i < |s.queue|
      ensures s.queue[i] in Recycled(s).image
    {
      assert Holds(s, s.queue[i], Queued(i));
    }
  }

  // ---------------------------------------------------------------- what the fields and links show

  ghost function FirstOf(row: seq<Buffer>): Buffer?
  {
    if row == [] then null else row[0]
  }

  ghost function LastOf(row: seq<Buffer>): Buffer?
  {
    if row == [] then null else row[|row| - 1]
  }

  /** Only where the worker is changes. */
  lemma PhaseInv(s: State, p: Phase)
    requires Inv(s) && s.phase in {Collected, Writing} && p in {Dropping, Writing, Written}
    requires (p == Dropping ==> |s.work| > 25 && s.done == 0) && (p == Written ==> s.done == |s.work|)
    ensures Inv(s.(phase := p))
  {
    var s' := s.(phase := p);
    hide Content;
    forall c | c in s'.role
      ensures Held(s', c, s'.role[c]) && Shaped(s', c)
    {
      assert Held(s, c, s.role[c]) && Shaped(s, c);
    }
    assert s'.work == s.work && s'.queue == s.queue;
  }

  /** The empty buffers are empty, the current one is the end of the queue, and all are there. */
  lemma FieldNodes(s: State)
    requires Inv(s)
    ensures s.curr in s.image && s.curr in s.role && s.image[s.curr].next == null && |s.image[s.curr].data| <= LOG_BUFFER_SIZE
    ensures s.spare != null ==> s.spare in s.image && s.image[s.spare] == Node(null, []) && s.spare != s.curr
    ensures s.new1 != null ==> s.new1 in s.image && s.image[s.new1] == Node(null, [])
    ensures s.new2 != null ==> s.new2 in s.image && s.image[s.new2] == Node(null, [])
    ensures s.role.Keys == s.image.Keys
  {
    assert Holds(s, s.curr, Current) && Shaped(s, s.curr);
    assert s.spare != null ==> Holds(s, s.spare, Spare) && Shaped(s, s.spare);
    assert s.new1 != null ==> Holds(s, s.new1, First) && Shaped(s, s.new1);
    assert s.new2 != null ==> Holds(s, s.new2, Second) && Shaped(s, s.new2);
  }

  /** The links between the buffers of the queue. */
  lemma QueueNode(s: State, i: int)
    requires Inv(s) && 0 <= i < |s.queue|
    ensures s.queue[i] in s.image && s.queue[i] != s.curr
    ensures s.image[s.queue[i]].next == if i + 1 < |s.queue| then s.queue[i + 1] else s.curr
  {
    assert Holds(s, s.queue[i], Queued(i)) && Shaped(s, s.queue[i]) && Holds(s, s.curr, Current);
  }

  /** The links between the worker's buffers. */
  lemma WorkNode(s: State, i: int)
    requires Inv(s) && 0 <= i < |s.work|
    ensures s.work[i] in s.image && s.work[i] != s.curr && s.role[s.work[i]] == Working(i)
    ensures s.image[s.work[i]].next == if i + 1 < |s.work| then s.work[i + 1] else null
  {
    assert Holds(s, s.work[i], Working(i)) && Shaped(s, s.work[i]) && Holds(s, s.curr, Current);
  }

  /** inst, the shared struct, together with the worker's variables. */
  datatype View = View(curr: Buffer, spare: Buffer?, head: Buffer?, tail: Buffer?, size: int, new1: Buffer?, new2: Buffer?,
                       workHead: Buffer?, workTail: Buffer?, workSize: int, node: Buffer?, phase: Phase, file: seq<Byte>)

  /** The fields and lists are what the state says. */
  ghost predicate Shows(v: View, s: State)
  {
    && v.curr == s.curr && v.spare == s.spare && v.new1 == s.new1 && v.new2 == s.new2 && v.phase == s.phase && v.file == s.file
    && v.head == FirstOf(s.queue) && v.tail == LastOf(s.queue) && v.size == |s.queue|
    && v.workHead == FirstOf(s.work) && v.workTail == LastOf(s.work) && v.workSize == |s.work|
    && (s.phase == Writing ==> s.done <= |s.work| && v.node == FirstOf(s.work[s.done..]))
  }

  lemma EnqueuedShows(v: View, s: State, b: Buffer)
    requires Shows(v, s) && Inv(s) && Next(s, b)
    ensures Shows(v.(curr := b, spare := null, head := if v.head == null then s.curr else v.head, tail := s.curr, size := v.size + 1),
                  Enqueued(s, b))
    ensures v.curr == s.curr && v.tail == LastOf(s.queue)
  {
    hide Inv, Next, Everything;
    EnqueuedInv(s, b);
  }

  /** tail->next = curr_buffer, which it is already, and curr_buffer->next = incoming */
  method LinkUp(last: Buffer?, full: Buffer, incoming: Buffer, ghost s: State)
    requires Inv(s) && Next(s, incoming) && Mirrors(s.image) && incoming.next == null && incoming.data == []
    requires full == s.curr && last == LastOf(s.queue)
    modifies s.image.Keys
    ensures Mirrors(Enqueued(s, incoming).image)
  {
    hide Inv, Next, Mirrors;
    FieldNodes(s);
    EnqueuedInv(s, incoming);
    QueueApart(s, incoming);
    if last != null {
      QueueNode(s, |s.queue| - 1);
      assert s.image[last] == Node(full, s.image[last].data);
      SameNode(s.image, last);
      SetNext(last, full, s.image);
    }
    Mirrored(s.image, full);
    assert full.next == null;
    SetNext(full, incoming, s.image);
    MirrorsMore(s.image[full := Node(incoming, s.image[full].data)], incoming);
  }

  lemma Mirrored(image: map<Buffer, Node>, b: Buffer)
    requires Mirrors(image) && b in image
    ensures b.next == image[b].next && b.data == image[b].data
  {
  }

  lemma QueueApart(s: State, b: Buffer)
    requires Inv(s) && Next(s, b)
    ensures b != s.curr && (s.queue != [] ==> s.queue[|s.queue| - 1] != b)
  {
    RowsApart(s, b);
  }

  lemma AppendedShows(v: View, s: State, line: seq<Byte>)
    requires Shows(v, s) && s.curr in s.image
    ensures Shows(v, Appended(s, line)) && v.curr == s.curr && v.spare == s.spare
    ensures Appended(s, line).image == s.image[s.curr := Node(s.image[s.curr].next, s.image[s.curr].data + line)]
  {
  }

  /** memcpy into the buffer, whose size goes up. */
  method AddData(b: Buffer, line: seq<Byte>, ghost image: map<Buffer, Node>)
    requires Mirrors(image) && b in image && |b.data| + |line| <= LOG_BUFFER_SIZE
    modifies b`data
    ensures Mirrors(image[b := Node(image[b].next, image[b].data + line)])
  {
    b.data := b.data + line;
  }

  /** What an append does, whatever the worker is doing meanwhile. */
  ghost predicate Took(s: State, s': State, line: seq<Byte>)
  {
    && s'.accepted == s.accepted + line && s'.kept == s.kept + line
    && s'.dropped == s.dropped && s'.file == s.file && s'.phase == s.phase && s'.work == s.work && s'.done == s.done
    && s'.new1 == s.new1 && s'.new2 == s.new2
    && (forall i {:trigger s.work[i]} :: 0 <= i < |s.work| ==>
          s.work[i] in s.image && s.work[i] in s'.image && s'.image[s.work[i]].data == s.image[s.work[i]].data)
  }

  lemma ViewFacts(v: View, s: State)
    requires Shows(v, s)
    ensures v.curr == s.curr && v.spare == s.spare && v.new1 == s.new1 && v.new2 == s.new2 && v.phase == s.phase
    ensures v.workSize == |s.work| && v.workHead == FirstOf(s.work)
  {
  }

  lemma NextIs(s: State, b: Buffer)
    requires Inv(s) && if s.spare == null then b !in s.image else b == s.spare
    ensures Next(s, b)
  {
    FieldNodes(s);
  }

  lemma TookEnqueued(s: State, b: Buffer, line: seq<Byte>)
    requires Inv(s) && Next(s, b)
    ensures Took(s, Appended(Enqueued(s, b), line), line)
  {
    RowsApart(s, b);
    hide Owned, Linked, Everything;
  }

  lemma TookAppended(s: State, line: seq<Byte>)
    requires Inv(s) && s.curr in s.image
    ensures Took(s, Appended(s, line), line)
  {
    RowsHere(s);
    hide Owned, Linked, Everything;
  }

  // ---------------------------------------------------------------- freeing a list

  /** row is a list by its next links, ended by null, without repetition. */
  ghost predicate Chained(row: seq<Buffer>)
    reads row
  {
    (forall i {:trigger LinkedAt(row, i)} :: 0 <= i < |row| ==> LinkedAt(row, i)) && Distinct(row)
  }

  ghost predicate LinkedAt(row: seq<Buffer>, i: int)
    requires 0 <= i < |row|
    reads row
  {
    row[i].next == if i + 1 < |row| then row[i + 1] else null
  }

  ghost predicate Distinct(row: seq<Buffer>)
  {
    forall i, j {:trigger row[i], row[j]} :: 0 <= i < |row| && 0 <= j < |row| && row[i] == row[j] ==> i == j
  }

  ghost function Elements(row: seq<Buffer>): set<Buffer>
  {
    set b | b in row
  }

  lemma ElementsMore(row: seq<Buffer>, k: int)
    requires Chained(row) && 0 <= k < |row|
    ensures Elements(row[..k + 1]) == Elements(row[..k]) + {row[k]} && row[k] !in Elements(row[..k])
    ensures FirstOf(row[k..]) == row[k] && row[k].next == FirstOf(row[k + 1..])
  {
    assert LinkedAt(row, k);
    assert row[..k + 1] == row[..k] + [row[k]];
  }

  /** The worker's list as it links its buffers. */
  lemma WorkChained(s: State)
    requires Inv(s) && Mirrors(s.image)
    ensures Chained(s.work) && Elements(s.work) <= s.image.Keys
  {
    hide Inv, Mirrors;
    forall i | 0 <= i < |s.work|
      ensures LinkedAt(s.work, i) && s.work[i] in s.image
      ensures s.work[i] in s.role && s.role[s.work[i]] == Working(i)
    {
      WorkNode(s, i);
      FieldNodes(s);
      Mirrored(s.image, s.work[i]);
    }
    forall i, j | 0 <= i < |s.work| && 0 <= j < |s.work| && s.work[i] == s.work[j]
      ensures i == j
    {
      assert Working(i) == Working(j);
    }
  }

  lemma ChainedFrom(row: seq<Buffer>, k: int)
    requires Chained(row) && 0 <= k <= |row|
    ensures Chained(row[k..]) && Elements(row[k..]) <= Elements(row)
  {
    forall i | 0 <= i < |row[k..]|
      ensures LinkedAt(row[k..], i)
    {
      assert LinkedAt(row, k + i);
    }
  }

  // ---------------------------------------------------------------- what the worker's steps do to the fields

  lemma StartedShows(v: View, s: State, a: Buffer, b: Buffer)
    requires Shows(v, s) && s.phase == Starting
    ensures Shows(v.(new1 := a, new2 := b, phase := Idle), Started(s, a, b))
  {
  }

  lemma SwappedShows(v: View, s: State)
    requires Shows(v, s) && Inv(s) && s.phase == Idle
    ensures v.new1 != null && v.new2 != null && v.workHead == null && v.phase == Idle && v.curr == s.curr
    ensures Shows(v.(curr := v.new1, new1 := null, head := null, tail := null, size := 0,
                     workHead := if v.head == null then v.curr else v.head, workTail := v.curr, workSize := v.size + 1,
                     spare := if v.spare == null then v.new2 else v.spare, new2 := if v.spare == null then null else v.new2,
                     phase := Collected), Swapped(s))
    ensures |Swapped(s).work| == |s.queue| + 1 && Swapped(s).image == s.image && Swapped(s).role.Keys == s.role.Keys
    ensures Swapped(s).accepted == s.accepted && Swapped(s).kept == s.kept && Swapped(s).dropped == s.dropped && Swapped(s).file == s.file
    ensures Swapped(s).phase == Collected
  {
    hide Owned, Linked, Everything;
  }

  lemma StartedMirrors(s: State, a: Buffer, b: Buffer)
    requires Mirrors(s.image) && a.next == null && a.data == [] && b.next == null && b.data == []
    ensures Mirrors(Started(s, a, b).image)
  {
    MirrorsMore(s.image, a);
    MirrorsMore(s.image[a := Node(null, [])], b);
  }

  /** No byte is appended, written or dropped. */
  ghost predicate Same(s: State, s': State)
  {
    s'.accepted == s.accepted && s'.kept == s.kept && s'.dropped == s.dropped && s'.file == s.file
  }

  lemma MirrorsLess(image: map<Buffer, Node>, image': map<Buffer, Node>)
    requires Mirrors(image) && forall b {:trigger image'[b]} :: b in image' ==> b in image && image'[b] == image[b]
    ensures Mirrors(image')
  {
  }

  /** memset(b, 0, sizeof(struct buffer)) */
  method Zero(b: Buffer, ghost image: map<Buffer, Node>)
    requires Mirrors(image) && b in image
    modifies b
    ensures b.next == null && b.data == [] && Mirrors(image[b := Node(null, [])])
  {
    b.next, b.data := null, [];
  }

  lemma PhaseShows(v: View, s: State, p: Phase)
    requires Shows(v, s) && Inv(s)
    ensures Shows(v.(phase := p, node := if p == Writing && s.done == 0 then v.workHead else v.node), s.(phase := p)) || (p == Writing && s.done > 0)
    ensures s.phase == Writing ==> (v.node == null <==> s.done == |s.work|)
  {
    hide Inv, Everything;
    assert s.done == 0 ==> s.work[s.done..] == s.work;
  }

  /** The first two of the worker's buffers, when there are more. */
  lemma DropNodes(v: View, s: State)
    requires Shows(v, s) && Inv(s) && s.phase == Dropping
    ensures |s.work| > 25 && v.workHead == s.work[0] && s.work[0] in s.image && s.work[1] in s.image && s.curr in s.image
    ensures s.role.Keys == s.image.Keys
    ensures s.image[s.work[0]].next == s.work[1] && s.image[s.work[1]].next == FirstOf(s.work[2..])
  {
    hide Everything;
    WorkNode(s, 0);
    WorkNode(s, 1);
    FieldNodes(s);
  }

  lemma DroppedShows(v: View, s: State)
    requires Shows(v, s) && |s.work| > 2 && s.done == 0 && s.curr in s.image && s.role.Keys == s.image.Keys
    ensures Shows(v.(workTail := s.work[1], workSize := 2, node := v.workHead, phase := Writing), Dropped(s))
    ensures Dropped(s).phase == Writing && Dropped(s).dropped && Dropped(s).accepted == s.accepted && Dropped(s).file == s.file
  {
    hide Content;
    assert Dropped(s).work[0..] == s.work[..2];
  }

  lemma DroppedImage(s: State)
    requires Inv(s) && s.phase == Dropping && s.curr in s.image && s.role.Keys == s.image.Keys && s.work[1] in s.image
    ensures var image := s.image[s.work[1] := Node(null, s.image[s.work[1]].data)];
      forall b {:trigger Dropped(s).image[b]} :: b in Dropped(s).image ==> b in image && Dropped(s).image[b] == image[b]
    ensures Dropped(s).role.Keys == s.role.Keys - Elements(s.work[2..])
  {
    hide Content, Linked;
    forall b
      ensures b in Dropped(s).role.Keys <==> b in s.role.Keys - Elements(s.work[2..])
    {
      if b in s.role {
        assert Held(s, b, s.role[b]);
        if b in s.work[2..] {
          var i :| 0 <= i < |s.work[2..]| && s.work[2..][i] == b;
          assert Holds(s, s.work[i + 2], Working(i + 2));
        }
        if s.role[b].Working? && s.role[b].i >= 2 {
          assert s.work[2..][s.role[b].i - 2] == b;
        }
      }
    }
  }

  lemma NotYetWritten(s: State)
    requires Inv(s) && s.phase in {Collected, Dropping}
    ensures s.done == 0 && s.work != []
  {
  }

  lemma WroteShows(v: View, s: State)
    requires Shows(v, s) && Inv(s) && s.phase == Writing && s.done < |s.work|
    ensures v.node == s.work[s.done] && s.work[s.done] in s.image
    ensures s.image[s.work[s.done]].next == FirstOf(s.work[s.done + 1..])
    ensures Shows(v.(file := v.file + s.image[s.work[s.done]].data, node := s.image[s.work[s.done]].next), Wrote(s))
  {
    hide Inv, Everything;
    WorkNode(s, s.done);
  }

  /** What is there to be reused: one buffer, and a second one when the spare was missing. */
  lemma RecycleNodes(v: View, s: State)
    requires Shows(v, s) && Inv(s) && s.phase == Written
    ensures v.new1 == null && s.work != [] && v.workHead == s.work[0] && v.workSize == |s.work| && v.new2 == s.new2
    ensures s.work[0] in s.image && s.image[s.work[0]].next == FirstOf(s.work[1..]) && s.role.Keys == s.image.Keys
    ensures s.new2 == null ==> |s.work| >= 2 && s.work[1] in s.image && s.image[s.work[1]].next == FirstOf(s.work[2..])
    ensures s.new2 == null ==> s.work[1] != s.work[0]
  {
    hide Everything;
    WorkNode(s, 0);
    if s.new2 == null {
      WorkNode(s, 1);
    }
    FieldNodes(s);
  }

  lemma RecycledShows(v: View, s: State)
    requires Shows(v, s) && s.phase == Written && s.role.Keys == s.image.Keys && s.work != [] && (s.new2 == null ==> |s.work| >= 2)
    ensures Shows(v.(new1 := s.work[0], new2 := if s.new2 == null then s.work[1] else s.new2,
                     workHead := null, workTail := null, workSize := 0, phase := Idle), Recycled(s))
    ensures Recycled(s).phase == Idle && Same(s, Recycled(s))
  {
  }

  /** How many of the worker's buffers are reused. */
  ghost function ReuseCount(s: State): int
  {
    if s.new2 == null then 2 else 1
  }

  lemma RecycledKeys(s: State)
    requires Inv(s) && s.phase == Written && s.role.Keys == s.image.Keys && ReuseCount(s) <= |s.work|
    ensures Recycled(s).role.Keys == s.role.Keys - Elements(s.work[ReuseCount(s)..])
  {
    hide Everything, Linked;
    var k := ReuseCount(s);
    forall b
      ensures b in Recycled(s).role.Keys <==> b in s.role.Keys - Elements(s.work[k..])
    {
      if b in s.role {
        assert Held(s, b, s.role[b]);
        if b in s.work[k..] {
          var i :| 0 <= i < |s.work[k..]| && s.work[k..][i] == b;
          assert Holds(s, s.work[i + k], Working(i + k));
        }
        if s.role[b].Working? && s.role[b].i >= k {
          assert s.work[k..][s.role[b].i - k] == b;
        }
      }
    }
  }

  /** The image after clearing the buffers that are reused. */
  ghost function ZeroedImage(s: State): map<Buffer, Node>
    requires s.work != [] && (s.new2 == null ==> |s.work| >= 2)
  {
    var image := s.image[s.work[0] := Node(null, [])];
    if s.new2 == null then image[s.work[1] := Node(null, [])] else image
  }

  lemma RecycledImage(s: State)
    requires Inv(s) && s.phase == Written && s.role.Keys == s.image.Keys && s.work != [] && (s.new2 == null ==> |s.work| >= 2)
    ensures forall b {:trigger Recycled(s).image[b]} :: b in Recycled(s).image ==>
      b in ZeroedImage(s) && Recycled(s).image[b] == ZeroedImage(s)[b]
  {
    hide Everything, Linked;
    var s' := Recycled(s);
    forall b | b in s'.image
      ensures b in ZeroedImage(s) && s'.image[b] == ZeroedImage(s)[b]
    {
      assert b in s.role && Reused(s, s.role[b]);
      assert Held(s, b, s.role[b]) && Holds(s, s.work[0], Working(0));
      if s.new2 == null {
        assert Holds(s, s.work[1], Working(1));
      }
    }
  }

  lemma RestApart(s: State)
    requires Inv(s) && s.work != [] && (s.new2 == null ==> |s.work| >= 2)
    ensures s.work[0] !in s.work[ReuseCount(s)..] && (s.new2 == null ==> s.work[1] !in s.work[ReuseCount(s)..])
    ensures Elements(s.work[ReuseCount(s)..]) <= s.role.Keys
  {
    hide Everything, Linked;
    forall i | 0 <= i < |s.work|
      ensures s.work[i] in s.role && s.role[s.work[i]] == Working(i)
    {
      assert Holds(s, s.work[i], Working(i));
    }
  }

  /** One buffer more is in the file, whole. */
  ghost predicate Writes(s: State, s': State)
  {
    && s'.accepted == s.accepted && s'.kept == s.kept && s'.dropped == s.dropped && s'.phase == s.phase && s'.work == s.work && s'.role == s.role
    && s.done < |s.work| && s'.done == s.done + 1 && s.work[s.done] in s.image && s'.image == s.image
    && s'.file == s.file + s.image[s.work[s.done]].data && s'.queue == s.queue && s'.curr == s.curr
  }

  lemma WrittenOne(s: State)
    requires s.done < |s.work| && s.work[s.done] in s.image
    ensures Writes(s, Wrote(s))
  {
  }

  lemma NotPast(s: State)
    requires Inv(s)
    ensures s.done <= |s.work|
  {
  }

  // ---------------------------------------------------------------- what the invariant is worth

  /** No two holders share a buffer: fields, places in the queue, places in the worker's list. */
  lemma BuffersApart(s: State)
    requires Inv(s)
    ensures s.curr != s.spare && s.curr != s.new1 && s.curr != s.new2 && (s.spare != null ==> s.spare != s.new1 && s.spare != s.new2)
    ensures s.new1 != null ==> s.new1 != s.new2
    ensures Distinct(s.queue + s.work)
    ensures forall b :: b in s.queue + s.work ==> b != s.curr && b != s.spare && b != s.new1 && b != s.new2
  {
    hide Everything, Linked;
    var q, w := s.queue, s.work;
    forall i | 0 <= i < |q + w|
      ensures (q + w)[i] in s.role && s.role[(q + w)[i]] == if i < |q| then Queued(i) else Working(i - |q|)
    {
      if i < |q| {
        assert Holds(s, q[i], Queued(i));
      } else {
        assert Holds(s, w[i - |q|], Working(i - |q|));
      }
    }
  }

  /** As long as nothing was dropped, the file has a beginning of what was appended, and the buffers have the rest. */
  lemma NothingLost(s: State)
    requires Inv(s) && !s.dropped
    ensures s.file <= s.accepted && s.done <= |s.work| && s.curr in s.image
    ensures s.accepted[|s.file|..] ==
      Content(s.image, s.work[s.done..]) + Content(s.image, s.queue) + s.image[s.curr].data
  {
    hide Owned, Content;
    FieldNodes(s);
    var a, b, c := Content(s.image, s.work[s.done..]), Content(s.image, s.queue), s.image[s.curr].data;
    assert s.accepted == s.file + (a + b + c);
  }
}
