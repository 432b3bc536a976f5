/**
 The asynchronous logger of lua-log.c: any number of threads append lines, one worker writes them out. What runs
 under the mutex, or touches only the worker's own buffers, is one step; steps come in any order.
 */
module Logger {
  import opened LoggerState
  import opened LoggerProgress

  class Log {
    var inst: View
    var running: bool
    ghost var s: State
    ghost var inUse: set<Buffer>   // what calloc returned and free has not got

    ghost predicate Valid()
      reads this, s.image.Keys
    {
      Inv(s) && Shows(inst, s) && Mirrors(s.image) && inUse == s.role.Keys
    }

    /** linit */
    constructor ()
      ensures Valid() && fresh(s.image.Keys) && running
      ensures s.accepted == [] && s.file == [] && !s.dropped && s.phase == Starting
    {
      var c := new Buffer();
      var d := new Buffer();
      inst := View(c, d, null, null, 0, null, null, null, null, 0, null, Starting, []);
      running := true;
      s := State(c, d, null, null, [], [], map[c := Current, d := Spare], map[c := Node(null, []), d := Node(null, [])],
                 Starting, 0, [], [], [], false);
      inUse := {c, d};
    }

    // -------------------------------------------------------------- the producers

    /** The current buffer goes to the end of the queue, and an empty one takes its place. */
    method Enqueue(incoming: Buffer)
      requires Valid() && Next(s, incoming) && incoming.next == null && incoming.data == []
      modifies this`inst, this`s, this`inUse, s.image.Keys
      ensures Valid() && s == Enqueued(old(s), incoming) && s.curr == incoming && s.image.Keys == old(s).image.Keys + {incoming}
      ensures s.image[s.curr] == Node(null, [])
    {
      hide Inv, Next, Shows, Enqueued, Mirrors;
      EnqueuedInv(s, incoming);
      EnqueuedShows(inst, s, incoming);
      LinkUp(inst.tail, inst.curr, incoming, s);
      s := Enqueued(s, incoming);
      inUse := inUse + {incoming};
      var head := if inst.head == null then inst.curr else inst.head;
      inst := inst.(head := head, tail := inst.curr, size := inst.size + 1, curr := incoming, spare := null);
    }

    /** append(logline, len) */
    method Append(line: seq<Byte>)
      requires Valid() && |line| <= LOG_BUFFER_SIZE
      modifies this`inst, this`s, this`inUse, s.image.Keys
      ensures Valid() && fresh(s.image.Keys - old(s).image.Keys) && Took(old(s), s, line)
    {
      hide Inv, Next, Shows, Enqueued, Mirrors, Appended, Took;
      ghost var s0 := s;
      FieldNodes(s);
      Mirrored(s.image, s.curr);
      ViewFacts(inst, s);
      if |inst.curr.data| + |line| >= LOG_BUFFER_SIZE {
        if inst.spare != null {
          Mirrored(s.image, s.spare);
          NextIs(s, inst.spare);
          Enqueue(inst.spare);
        } else {
          var incoming := new Buffer();
          NextIs(s, incoming);
          Enqueue(incoming);
        }
        TookEnqueued(s0, s.curr, line);
        ViewFacts(inst, s);
        Mirrored(s.image, s.curr);
      } else {
        TookAppended(s0, line);
      }
      AppendedInv(s, line);
      AppendedShows(inst, s, line);
      AddData(inst.curr, line, s.image);
      s := Appended(s, line);
    }

    // -------------------------------------------------------------- the worker

    /** worker_func: its two empty buffers */
    method StartWorker()
      requires Valid() && s.phase == Starting
      modifies this`inst, this`s, this`inUse
      ensures Valid() && fresh(s.image.Keys - old(s).image.Keys) && Same(old(s), s) && s.phase == Idle
    {
      hide Inv, Shows, Mirrors, Started;
      var a := new Buffer();
      var b := new Buffer();
      FieldNodes(s);
      StartedInv(s, a, b);
      StartedShows(inst, s, a, b);
      StartedMirrors(s, a, b);
      s := Started(s, a, b);
      inst := inst.(new1 := a, new2 := b, phase := Idle);
      inUse := inUse + {a, b};
    }

    /** The worker's critical section: it takes the queue with the current buffer, and hands over its empty ones. */
    method Collect()
      requires Valid() && s.phase == Idle
      modifies this`inst, this`s
      ensures Valid() && Same(old(s), s) && s.phase == Collected && s.image == old(s).image && |s.work| == |old(s).queue| + 1
      ensures old(s).new1 != null && s == Swapped(old(s))
    {
      hide Inv, Shows, Mirrors, Swapped;
      FieldNodes(s);
      ViewFacts(inst, s);
      SwappedInv(s);
      SwappedShows(inst, s);
      Mirrored(s.image, s.new1);
      Mirrored(s.image, s.new2);
      assert inst.workHead == null;
      assert inst.new1.data == [];
      assert inst.new2.data == [];
      if inst.head == null {
        inst := inst.(head := inst.curr, tail := inst.curr);
      } else {
        inst := inst.(tail := inst.curr);
      }
      inst := inst.(size := inst.size + 1, curr := inst.new1, new1 := null);
      inst := inst.(workHead := inst.head, workTail := inst.tail, workSize := inst.size, head := null, tail := null, size := 0);
      if inst.spare == null {
        inst := inst.(spare := inst.new2, new2 := null);
      }
      inst := inst.(phase := Collected);
      s := Swapped(s);
      ViewFacts(inst, s);
      assert inst.workSize > 0;
    }

    /** while (node != NULL) { p = node; node = node->next; free(p); }: every buffer of the list is freed, each once. */
    method FreeAll(first: Buffer?, ghost row: seq<Buffer>)
      requires Chained(row) && first == FirstOf(row) && Elements(row) <= inUse
      modifies this`inUse
      ensures inUse == old(inUse) - Elements(row)
    {
      var node := first;
      ghost var k := 0;
      while node != null
        invariant 0 <= k <= |row| && node == FirstOf(row[k..]) && inUse == old(inUse) - Elements(row[..k])
        decreases |row| - k
      {
        var p := node;
        ElementsMore(row, k);
        node := node.next;
        assert p in inUse;
        inUse := inUse - {p};
        k := k + 1;
      }
      assert row[..k] == row;
    }

    /** The worker reports that it is going to drop buffers; the report is appended like any line. */
    method Report(message: seq<Byte>)
      requires Valid() && s.phase == Collected && |s.work| > 25 && |message| < 256
      modifies this`inst, this`s, this`inUse, s.image.Keys
      ensures Valid() && fresh(s.image.Keys - old(s).image.Keys) && s.phase == Dropping
      ensures s.accepted == old(s).accepted + message && s.kept == old(s).kept + message && s.dropped == old(s).dropped && s.file == old(s).file
      ensures Took(old(s), s.(phase := Collected), message)
    {
      hide Inv, Shows, Mirrors;
      Append(message);
      NotYetWritten(s);
      PhaseInv(s, Dropping);
      PhaseShows(inst, s, Dropping);
      s := s.(phase := Dropping);
      inst := inst.(phase := Dropping);
    }

    /** More than 25 buffers: all after the first two are freed unwritten. */
    method Drop()
      requires Valid() && s.phase == Dropping
      modifies this`inst, this`s, this`inUse, s.image.Keys
      ensures Valid() && s == Dropped(old(s)) && s.phase == Writing && s.image.Keys <= old(s).image.Keys
    {
      hide Inv, Shows, Mirrors, Chained, Dropped;
      ghost var g := s;
      DropNodes(inst, g);
      NotYetWritten(g);
      DroppedInv(g);
      DroppedShows(inst, g);
      DroppedImage(g);
      Mirrored(g.image, g.work[0]);
      Mirrored(g.image, g.work[1]);
      WorkChained(g);
      ChainedFrom(g.work, 2);
      var newTail := inst.workHead.next;
      FreeAll(newTail.next, g.work[2..]);
      SetNext(newTail, null, g.image);
      MirrorsLess(g.image[newTail := Node(null, g.image[newTail].data)], Dropped(g).image);
      s := Dropped(g);
      inst := inst.(workTail := newTail, workSize := 2, node := inst.workHead, phase := Writing);
    }

    /** At most 25 buffers: all of them are to be written. */
    method BeginWrite()
      requires Valid() && s.phase == Collected && |s.work| <= 25
      modifies this`inst, this`s
      ensures Valid() && s == old(s).(phase := Writing)
    {
      hide Inv, Shows, Mirrors;
      NotYetWritten(s);
      PhaseInv(s, Writing);
      PhaseShows(inst, s, Writing);
      inst := inst.(phase := Writing, node := inst.workHead);
      s := s.(phase := Writing);
    }

    /** fwrite_unlocked(node->data, node->size, 1, inst.handle), and on to the next */
    method WriteNode()
      requires Valid() && s.phase == Writing && inst.node != null
      modifies this`inst, this`s
      ensures Valid() && Writes(old(s), s)
    {
      hide Inv, Shows, Mirrors, Wrote;
      PhaseShows(inst, s, Writing);
      NotPast(s);
      WroteInv(s);
      WroteShows(inst, s);
      Mirrored(s.image, inst.node);
      WrittenOne(s);
      inst := inst.(file := inst.file + inst.node.data, node := inst.node.next);
      s := Wrote(s);
    }

    method EndWrite()
      requires Valid() && s.phase == Writing && inst.node == null
      modifies this`inst, this`s
      ensures Valid() && s == old(s).(phase := Written)
    {
      hide Inv, Shows, Mirrors;
      PhaseShows(inst, s, Written);
      PhaseInv(s, Written);
      inst := inst.(phase := Written);
      s := s.(phase := Written);
    }

    /** The first one or two of the written buffers become the worker's empty ones, the others are freed. */
    method Recycle()
      requires Valid() && s.phase == Written
      modifies this`inst, this`s, this`inUse, s.image.Keys
      ensures Valid() && Same(old(s), s) && s.phase == Idle && s.image.Keys <= old(s).image.Keys
      ensures Stepped(old(s), s, [])
    {
      hide Inv, Shows, Mirrors, Chained, Recycled;
      ghost var g := s;
      RecycleNodes(inst, g);
      RecycledInv(g);
      RecycledShows(inst, g);
      RecycledKeys(g);
      RecycledImage(g);
      RestApart(g);
      WorkChained(g);
      ChainedFrom(g.work, ReuseCount(g));
      Mirrored(g.image, g.work[0]);
      assert inst.workSize > 0;
      var new1 := inst.workHead;
      inst := inst.(new1 := new1, workHead := new1.next, workSize := inst.workSize - 1);
      ghost var image := g.image[new1 := Node(null, [])];
      Zero(new1, g.image);
      if inst.new2 == null {
        assert inst.workSize > 0;
        var new2 := inst.workHead;
        Mirrored(image, new2);
        inst := inst.(new2 := new2, workHead := new2.next, workSize := inst.workSize - 1);
        Zero(new2, image);
      }
      FreeAll(inst.workHead, g.work[ReuseCount(g)..]);
      MirrorsLess(ZeroedImage(g), Recycled(g).image);
      inst := inst.(workHead := null, workTail := null, workSize := 0, phase := Idle);
      s := Recycled(g);
    }

    // -------------------------------------------------------------- any interleaving

    /** The next step of the worker, whichever it is. */
    method WorkerStep(message: seq<Byte>)
      requires Valid() && |message| < 256
      modifies this`inst, this`s, this`inUse, s.image.Keys
      ensures Valid() && fresh(s.image.Keys - old(s).image.Keys)
      ensures Quiet(s) ==> Quiet(old(s)) && s.accepted == old(s).accepted
      ensures if running || old(s).phase != Idle then Stepped(old(s), s, message) else s == old(s)
    {
      hide Inv, Shows, Mirrors, Dropped, Took, Swapped, Recycled;
      ViewFacts(inst, s);
      FieldNodes(s);
      match inst.phase {
        case Starting =>
          StartWorker();
        case Idle =>
          if running {
            Collect();
          }
        case Collected =>
          if inst.workSize > 25 {
            Report(message);
          } else {
            BeginWrite();
          }
        case Dropping =>
          DropNodes(inst, s);
          NotYetWritten(s);
          DroppedShows(inst, s);
          Drop();
        case Writing =>
          PhaseShows(inst, s, Writing);
          if inst.node != null {
            WriteNode();
          } else {
            EndWrite();
          }
        case Written =>
          Recycle();
      }
    }

    /**
     A round without appends: when at most 25 buffers are collected, |queue| + 5 steps of the worker bring everything
     that was queued or current into the file, and the worker to its next round.
     */
    method Flush(message: seq<Byte>)
      requires Valid() && |message| < 256 && running && s.phase == Idle && |s.queue| < 25
      modifies this`inst, this`s, this`inUse, s.image.Keys
      ensures Valid() && s.phase == Idle && s.file == old(s).kept && s.queue == [] && s.image[s.curr].data == []
      ensures s.dropped == old(s).dropped && s.accepted == old(s).accepted && s.kept == s.file
    {
      hide Inv, Shows, Mirrors, Flushing, Stepped, Distance;
      ghost var s0 := s;
      QueueSize(inst, s);
      var n := inst.size + 4;
      WorkerStep(message);
      FlushStarts(s0, s, message);
      FlushFacts(s, s0.kept);
      for k := 0 to n
        invariant Valid() && fresh(s.image.Keys - old(s.image.Keys)) && running == old(running)
        invariant Flushing(s, s0.kept) && s.done <= |s.work| && Distance(s) == n - k
        invariant s.dropped == s0.dropped && s.accepted == s0.accepted
      {
        ghost var was := s;
        DistanceLeft(s);
        WorkerStep(message);
        FlushGoesOn(was, s, message, s0.kept);
      }
      FlushEnds(s, s0.kept);
      FlushFacts(s, s0.kept);
    }

    /**
     A round that finds more than 25 buffers: seven steps bring the first two of them into the file and drop the
     others, and the report of that is what is left to be written.
     */
    method FlushDropping(message: seq<Byte>)
      requires Valid() && |message| < 256 && running && s.phase == Idle && |s.queue| >= 25
      modifies this`inst, this`s, this`inUse, s.image.Keys
      ensures Valid() && s.phase == Idle && s.dropped && s.file == old(s).file + Content(old(s).image, old(s).queue[..2])
      ensures s.accepted == old(s).accepted + message && s.kept == s.file + message
    {
      hide Inv, Shows, Mirrors, Landing, Stepped, Distance, Content;
      ghost var s0 := s;
      WorkerStep(message);
      ghost var s1 := s;
      RoundStarted(s0, s1, message);
      WorkerStep(message);
      ghost var s2 := s;
      DropReported(s0, s1, s2, message);
      WorkerStep(message);
      DropLands(s2, s, message);
      ghost var target := s0.file + Content(s0.image, s0.queue[..2]);
      for k := 0 to 4
        invariant Valid() && fresh(s.image.Keys - old(s.image.Keys))
        invariant Landing(s, target) && s.done <= |s.work| && Distance(s) == 4 - k
        invariant s.dropped && s.accepted == s0.accepted + message && s.kept == target + message
      {
        ghost var was := s;
        DistanceLeft(s);
        WorkerStep(message);
        LandingGoesOn(was, s, message, target);
      }
      Landed(s, target);
    }

    /** One event of a run; a is any beginning of what was accepted. */
    method Happen(e: Event, message: seq<Byte>, ghost a: seq<Byte>)
      requires Valid() && |message| < 256 && (e.Line? ==> |e.text| < LOG_MAX)
      modifies this, s.image.Keys
      ensures Valid() && fresh(s.image.Keys - old(s).image.Keys) && (e != Stop ==> running == old(running))
      ensures Quiet(s) ==> Quiet(old(s)) && s.accepted == old(s).accepted + Text(e)
      ensures s.done <= |s.work| && old(s).done <= |old(s).work|
      ensures Quiet(s) && old(running) && a <= old(s).kept ==>
        a <= s.kept && Remaining(s, a) <= Left(Remaining(old(s), a), if e.Step? then 1 else 0)
    {
      hide Inv, Shows, Mirrors, Took, Stepped, Distance, Remaining;
      ghost var was := s;
      CountsFit(s);
      match e {
        case Line(text) =>
          Append(text);
          RemainingStays(was, s, text, a);
          KeptTook(was, s, text);
        case Step =>
          WorkerStep(message);
          CountsFit(s);
          if Quiet(s) && running && a <= was.kept {
            RemainingFalls(was, s, message, a);
          }
        case Stop =>
          running := false;
      }
    }

    /**
     Any run at all: lines come from the producers, steps from the worker, in any order, and the logger may be
     told to stop. As long as nothing had to be dropped, what was accepted is just the lines; and however many lines
     come in between, 27 steps of the worker after its next round has begun have brought all that was accepted before
     the run into the file.
     */
    method Run(events: seq<Event>, message: seq<Byte>)
      requires Valid() && |message| < 256 && forall e :: e in events && e.Line? ==> |e.text| < LOG_MAX
      modifies this, s.image.Keys
      ensures Valid() && (old(Quiet(s)) && Quiet(s) ==> s.accepted == old(s.accepted) + Lines(events))
      ensures old(Quiet(s)) && Quiet(s) && old(running) && Stop !in events && Steps(events) >= old(Distance(s)) + 27 ==>
        old(s.accepted) <= s.file
    {
      hide Inv, Shows, Mirrors, Distance, Remaining, Text;
      ghost var start, a := s, s.accepted;
      CountsFit(s);
      RemainingStart(s, a);
      for i := 0 to |events|
        invariant Valid() && fresh(s.image.Keys - old(s.image.Keys))
        invariant Quiet(start) && Quiet(s) ==> s.accepted == start.accepted + Lines(events[..i])
        invariant s.done <= |s.work| && start.done <= |start.work|
        invariant old(running) && Stop !in events ==> running
        invariant Quiet(start) && Quiet(s) && old(running) && Stop !in events ==>
          a <= s.kept && Remaining(s, a) <= Left(Distance(start) + 27, Steps(events[..i]))
      {
        LinesMore(events, i);
        StepsMore(events, i);
        assert events[i] in events;
        Happen(events[i], message, a);
      }
      assert events[..|events|] == events;
      if Remaining(s, a) == 0 {
        RemainingNone(s, a);
      }
    }
  }

  const LOG_MAX: int := 4 * 1024

  datatype Event = Line(text: seq<Byte>) | Step | Stop

  function Text(e: Event): seq<Byte>
  {
    if e.Line? then e.text else []
  }

  /** The lines of a run, one after the other. */
  function Lines(events: seq<Event>): seq<Byte>
  {
    if events == [] then [] else Lines(events[..|events| - 1]) + Text(events[|events| - 1])
  }

  lemma LinesMore(events: seq<Event>, i: int)
    requires 0 <= i < |events|
    ensures Lines(events[..i + 1]) == Lines(events[..i]) + Text(events[i])
  {
    assert events[..i + 1][..i] == events[..i];
  }

  /** The steps of the worker in a run. */
  function Steps(events: seq<Event>): nat
  {
    if events == [] then 0 else Steps(events[..|events| - 1]) + if events[|events| - 1].Step? then 1 else 0
  }

  lemma StepsMore(events: seq<Event>, i: int)
    requires 0 <= i < |events|
    ensures Steps(events[..i + 1]) == Steps(events[..i]) + if events[i].Step? then 1 else 0
  {
    assert events[..i + 1][..i] == events[..i];
  }

  function Left(n: nat, k: nat): nat
  {
    if k < n then n - k else 0
  }

  lemma CountsFit(s: State)
    requires Inv(s)
    ensures s.done <= |s.work| && (!s.dropped ==> s.kept == s.accepted)
  {
  }

  lemma KeptTook(s: State, s': State, line: seq<Byte>)
    requires Took(s, s', line)
    ensures s'.kept == s.kept + line && s'.accepted == s.accepted + line && s'.dropped == s.dropped && s'.phase == s.phase
    ensures s'.done == s.done && s'.work == s.work
  {
  }

  /** Nothing was dropped, nor is about to be. */
  ghost predicate Quiet(s: State)
  {
    !s.dropped && s.phase != Dropping
  }
}
