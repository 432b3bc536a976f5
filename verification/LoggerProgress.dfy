/** That the logger's worker gets on: what each of its steps does, how far it is from its next round, and from the file. */
module LoggerProgress {
  import opened LoggerState

  /** What one step of a worker that is told to run makes of the state. */
  ghost predicate Stepped(s: State, s': State, message: seq<Byte>)
  {
    match s.phase
    case Starting => s'.phase == Idle && Same(s, s')
    case Idle => s.new1 != null && s' == Swapped(s)
    case Collected =>
      if |s.work| > 25 then s'.phase == Dropping && Took(s, s'.(phase := Collected), message) else s' == s.(phase := Writing)
    case Dropping => |s.work| > 2 && s.curr in s.image && s.role.Keys == s.image.Keys && s' == Dropped(s)
    case Writing => if s.done < |s.work| then Writes(s, s') else s' == s.(phase := Written)
    case Written =>
      s.role.Keys == s.image.Keys && s.work != [] && (s.new2 == null ==> |s.work| >= 2) && s' == Recycled(s)
  }

  /** The worker's steps to the start of its next round. */
  ghost function Distance(s: State): nat
    requires s.done <= |s.work|
  {
    match s.phase
    case Starting => 1
    case Idle => 0
    case Collected => if |s.work| > 25 then 6 else |s.work| + 3
    case Dropping => 5
    case Writing => |s.work| - s.done + 2
    case Written => 1
  }

  /** Every step but the one that starts a round brings the next round one step nearer. */
  lemma DistanceFalls(s: State, s': State, message: seq<Byte>)
    requires Inv(s) && Inv(s') && Stepped(s, s', message)
    ensures s.done <= |s.work| && s'.done <= |s'.work|
    ensures if s.phase == Idle then s'.phase == Collected && s'.work == s.queue + [s.curr] else Distance(s) == Distance(s') + 1
  {
    hide Stepped, Distance, Inv;
    NotPast(s);
    NotPast(s');
    if s.phase == Idle {
      RoundBegins(s, s', message);
    } else {
      RoundGoesOn(s, s', message);
    }
  }

  lemma RoundBegins(s: State, s': State, message: seq<Byte>)
    requires Stepped(s, s', message) && s.phase == Idle
    ensures s'.phase == Collected && s'.work == s.queue + [s.curr]
  {
    hide Took, Writes, Dropped, Recycled;
  }

  lemma RoundGoesOn(s: State, s': State, message: seq<Byte>)
    requires Inv(s) && Inv(s') && Stepped(s, s', message) && s.phase != Idle
    requires s.done <= |s.work| && s'.done <= |s'.work|
    ensures Distance(s) == Distance(s') + 1
  {
    hide Owned, Linked, Everything, Content, Swapped;
  }

  /** Appended lines do not hold the worker up. */
  lemma DistanceStays(s: State, s': State, line: seq<Byte>)
    requires Took(s, s', line) && s.done <= |s.work|
    ensures s'.done <= |s'.work| && Distance(s') == Distance(s)
  {
  }

  // ---------------------------------------------------------------- bytes on their way to the file

  /** File and worker's list. */
  ghost function Passing(s: State): seq<Byte>
    requires s.done <= |s.work|
  {
    s.file + Content(s.image, s.work[s.done..])
  }

  /** How many steps of the worker, at most, until the file begins with a, when nothing is dropped. */
  ghost function Remaining(s: State, a: seq<Byte>): nat
    requires s.done <= |s.work|
  {
    if a <= s.file then 0
    else if a <= Passing(s) then
      if s.phase == Writing then |s.work| - s.done else if |s.work| > 25 then 26 else |s.work| + 1
    else Distance(s) + 27
  }

  lemma RemainingStart(s: State, a: seq<Byte>)
    requires s.done <= |s.work|
    ensures Remaining(s, a) <= Distance(s) + 27
  {
  }

  lemma RemainingNone(s: State, a: seq<Byte>)
    requires s.done <= |s.work| && Remaining(s, a) == 0
    ensures a <= s.file
  {
    if s.done == |s.work| {
      assert s.work[s.done..] == [];
      assert Passing(s) == s.file;
    }
  }

  lemma WorkSame(s: State, s': State, line: seq<Byte>)
    requires Took(s, s', line) && s.done <= |s.work|
    ensures Passing(s') == Passing(s)
  {
    ContentFrame(s.image, s'.image, s.work[s.done..]);
  }

  lemma RemainingStays(s: State, s': State, line: seq<Byte>, a: seq<Byte>)
    requires Took(s, s', line) && s.done <= |s.work|
    ensures s'.done <= |s'.work| && Remaining(s', a) == Remaining(s, a)
  {
    hide Passing;
    WorkSame(s, s', line);
    hide Took;
    DistanceStays(s, s', line);
  }

  lemma PrefixOn(a: seq<Byte>, b: seq<Byte>, c: seq<Byte>)
    requires a <= b
    ensures a <= b + c
  {
  }

  lemma WritesPassing(s: State, s': State)
    requires Writes(s, s')
    ensures s'.done <= |s'.work| && Passing(s') == Passing(s) && s'.file == s.file + s.image[s.work[s.done]].data
  {
    var w := s.work[s.done..];
    assert w[0] == s.work[s.done] && w[1..] == s.work[s.done + 1..];
    assert Content(s.image, w) == s.image[w[0]].data + Content(s.image, w[1..]);
    hide Content;
    var f, d, r := s.file, s.image[s.work[s.done]].data, Content(s.image, s.work[s.done + 1..]);
    assert f + (d + r) == (f + d) + r;
  }

  lemma SwappedPassing(s: State)
    requires Inv(s) && s.phase == Idle
    ensures s.new1 != null && Passing(Swapped(s)) == s.kept && Swapped(s).work == s.queue + [s.curr]
    ensures Swapped(s).done == 0 && Swapped(s).queue == [] && Swapped(s).file == s.file && Swapped(s).kept == s.kept
    ensures Swapped(s).curr in s.image && s.image[Swapped(s).curr].data == [] && Swapped(s).image == s.image
  {
    hide Owned, Linked, Content;
    FieldNodes(s);
    SwapsAll(s);
  }

  lemma SwapsAll(s: State)
    requires Inv(s) && s.phase == Idle && s.curr in s.image
    ensures s.file + Content(s.image, (s.queue + [s.curr])[0..]) == s.kept
  {
    hide Owned, Linked, Content;
    ContentJoin(s.image, s.queue, [s.curr]);
    ContentOne(s.image, s.curr);
    ContentNone(s.image);
    var w := s.queue + [s.curr];
    assert w[0..] == w && s.work[s.done..] == [];
    var f, q, c := s.file, Content(s.image, s.queue), s.image[s.curr].data;
    assert f + [] + q + c == f + (q + c);
  }

  /** Outside the writing phases the worker has nothing unwritten. */
  lemma NothingPassing(s: State)
    requires Inv(s) && s.phase in {Starting, Idle, Written}
    ensures s.done <= |s.work| && Passing(s) == s.file
  {
    hide Owned, Linked;
    assert s.work[s.done..] == [];
  }

  // ---------------------------------------------------------------- a round without appends

  /** A round under way in which everything kept is in the file or in the worker's list. */
  ghost predicate Flushing(s: State, kept: seq<Byte>)
  {
    && Inv(s) && s.phase !in {Starting, Dropping} && s.kept == kept && s.queue == [] && s.curr in s.image
    && s.image[s.curr].data == [] && (s.phase == Collected ==> |s.work| <= 25)
  }

  lemma FlushStarts(s: State, s': State, message: seq<Byte>)
    requires Inv(s) && Inv(s') && s.phase == Idle && Stepped(s, s', message) && |s.queue| < 25
    ensures s'.done <= |s'.work| && Flushing(s', s.kept) && Distance(s') == |s.queue| + 4 && s'.dropped == s.dropped
    ensures s'.accepted == s.accepted
  {
    hide Inv, Content;
    SwappedPassing(s);
  }

  lemma FlushGoesOn(s: State, s': State, message: seq<Byte>, kept: seq<Byte>)
    requires Flushing(s, kept) && Inv(s') && Stepped(s, s', message) && s.phase != Idle
    ensures s.done <= |s.work| && s'.done <= |s'.work| && Flushing(s', kept) && Distance(s) == Distance(s') + 1
    ensures s'.dropped == s.dropped && s'.accepted == s.accepted
  {
    DistanceFalls(s, s', message);
    FieldNodes(s);
    FieldNodes(s');
    if s.phase == Written {
      RecycledRows(s);
    }
    hide Owned, Linked, Everything, Content;
  }

  lemma FlushFacts(s: State, kept: seq<Byte>)
    requires Flushing(s, kept)
    ensures s.kept == kept && s.queue == [] && s.curr in s.image && s.image[s.curr].data == []
  {
  }

  lemma DistanceLeft(s: State)
    requires s.done <= |s.work| && Distance(s) > 0
    ensures s.phase != Idle
  {
  }

  lemma QueueSize(v: View, s: State)
    requires Shows(v, s)
    ensures v.size == |s.queue|
  {
  }

  lemma FlushEnds(s: State, kept: seq<Byte>)
    requires Flushing(s, kept) && s.done <= |s.work| && Distance(s) == 0
    ensures s.phase == Idle && s.file == kept
  {
    hide Owned, Linked;
    assert s.work[s.done..] == [];
  }

  // ---------------------------------------------------------------- a round that drops

  /** The worker's list as it stands will bring the file to target. */
  ghost predicate Landing(s: State, target: seq<Byte>)
  {
    Inv(s) && s.phase in {Writing, Written, Idle} && s.done <= |s.work| && Passing(s) == target
  }

  lemma RoundStarted(s: State, s': State, message: seq<Byte>)
    requires Inv(s) && Inv(s') && s.phase == Idle && Stepped(s, s', message)
    ensures s'.phase == Collected
  {
    hide Inv, Content;
  }

  lemma DropReported(s0: State, s1: State, s2: State, message: seq<Byte>)
    requires Inv(s0) && Inv(s1) && Inv(s2) && s0.phase == Idle && |s0.queue| >= 25
    requires Stepped(s0, s1, message) && Stepped(s1, s2, message)
    ensures s2.phase == Dropping && s2.file == s0.file && s2.accepted == s0.accepted + message && |s2.work| > 25
    ensures Content(s2.image, s2.work[..2]) == Content(s0.image, s0.queue[..2])
    ensures s2.curr in s2.image && Content(s2.image, s2.queue) + s2.image[s2.curr].data == message
  {
    hide Owned, Linked, Content;
    SwappedPassing(s0);
    FieldNodes(s2);
    assert s1.work == s0.queue + [s0.curr] && s2.work == s1.work && s2.work[..2] == s0.queue[..2];
    WorkSame(s1, s2.(phase := Collected), message);
    ContentFrame(s1.image, s2.image, s2.work[..2]);
    Behind(Passing(s1), Content(s2.image, s2.queue), s2.image[s2.curr].data, message);
  }

  lemma Behind(p: seq<Byte>, q: seq<Byte>, c: seq<Byte>, message: seq<Byte>)
    requires p + q + c == p + message
    ensures q + c == message
  {
    assert p + q + c == p + (q + c);
    assert (p + (q + c))[|p|..] == q + c && (p + message)[|p|..] == message;
  }

  lemma DropLands(s: State, s': State, message: seq<Byte>)
    requires Inv(s) && Inv(s') && s.phase == Dropping && Stepped(s, s', message)
    ensures var target := s.file + Content(s.image, s.work[..2]);
      && Landing(s', target) && s'.done <= |s'.work| && Distance(s') == 4 && s'.dropped && s'.accepted == s.accepted && s'.phase == Writing
      && s.curr in s.image && s'.kept == target + (Content(s.image, s.queue) + s.image[s.curr].data)
  {
    DroppedRows(s);
    hide Owned, Linked, Content;
    ContentFrame(s.image, s'.image, s.work[..2]);
    assert s'.work[s'.done..] == s.work[..2];
  }

  lemma LandingGoesOn(s: State, s': State, message: seq<Byte>, target: seq<Byte>)
    requires Landing(s, target) && Inv(s') && Stepped(s, s', message) && s.phase != Idle
    ensures s.done <= |s.work| && s'.done <= |s'.work| && Landing(s', target) && Distance(s) == Distance(s') + 1
    ensures s'.dropped == s.dropped && s'.accepted == s.accepted && s'.kept == s.kept
  {
    DistanceFalls(s, s', message);
    hide Owned, Linked, Content;
    if s.phase == Writing && s.done < |s.work| {
      WritesPassing(s, s');
    } else if s.phase == Written {
      NothingPassing(s);
      NothingPassing(s');
    }
  }

  lemma Landed(s: State, target: seq<Byte>)
    requires Landing(s, target) && s.done <= |s.work| && Distance(s) == 0
    ensures s.phase == Idle && s.file == target
  {
    NothingPassing(s);
  }

  // ---------------------------------------------------------------- any number of appends in between

  /** Each step of the worker brings the bytes a one step nearer to the file. */
  lemma RemainingFalls(s: State, s': State, message: seq<Byte>, a: seq<Byte>)
    requires Inv(s) && Inv(s') && Stepped(s, s', message) && a <= s.kept
    requires s'.phase != Dropping && s.phase != Dropping
    ensures s.done <= |s.work| && s'.done <= |s'.work|
    ensures Remaining(s, a) > 0 ==> Remaining(s', a) < Remaining(s, a)
    ensures Remaining(s, a) == 0 ==> Remaining(s', a) == 0
  {
    hide Dropped, Owned, Linked, Everything, Swapped;
    DistanceFalls(s, s', message);
    if s.phase == Idle {
      NothingPassing(s);
      SwappedPassing(s);
    } else if s.phase == Writing && s.done < |s.work| {
      WritesPassing(s, s');
      if a <= s.file {
        PrefixOn(a, s.file, s.image[s.work[s.done]].data);
      }
    }
  }
}
