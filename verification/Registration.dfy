/** The loading of descriptor files in register.c: repeated passes until every file's dependencies are there. */
module Registration {
  /** What matters of a file descriptor. */
  datatype File = File(name: string, dependency: seq<string>)

  /** An entry of files[]: set to NULL once it is registered. */
  datatype Entry = Taken | Pending(file: File)

  datatype Check = Ok | Exist | Dependency

  predicate Ready(f: File, s: set<string>)
  {
    forall d <- f.dependency :: d in s
  }

  /** Nothing more can be registered. */
  ghost predicate Closed(files: seq<File>, s: set<string>)
  {
    forall f <- files :: Ready(f, s) ==> f.name in s
  }

  /** s is contained in every closed set above start. */
  ghost predicate Below(files: seq<File>, start: set<string>, s: set<string>)
  {
    forall t: set<string> :: start <= t && Closed(files, t) ==> s <= t
  }

  /** The least fixpoint of the rule that a file may be registered after all its dependencies. */
  ghost predicate Least(files: seq<File>, start: set<string>, s: set<string>)
  {
    start <= s && Closed(files, s) && Below(files, start, s)
  }

  /** Whatever the order of the files, the same names end up registered. */
  lemma OrderIrrelevant(a: seq<File>, b: seq<File>, start: set<string>, s: set<string>, t: set<string>)
    requires (forall f :: f in a <==> f in b) && Least(a, start, s) && Least(b, start, t)
    ensures s == t
  {
    assert Closed(a, t) && Closed(b, s);
  }

  /** The files of the log were registered one after the other, each after all its dependencies. */
  ghost predicate InOrder(log: seq<File>, start: set<string>)
  {
    forall j :: 0 <= j < |log| ==> ReadyAt(log, start, j)
  }

  ghost predicate ReadyAt(log: seq<File>, start: set<string>, j: nat)
    requires j < |log|
  {
    Ready(log[j], start + Names(log[..j])) && log[j].name !in start + Names(log[..j])
  }

  function Names(log: seq<File>): set<string>
  {
    set f <- log :: f.name
  }

  lemma NamesSnoc(log: seq<File>, f: File)
    ensures Names(log + [f]) == Names(log) + {f.name}
  {
  }

  lemma InOrderSnoc(log: seq<File>, start: set<string>, f: File)
    requires InOrder(log, start) && Ready(f, start + Names(log)) && f.name !in start + Names(log)
    ensures InOrder(log + [f], start)
  {
    var more := log + [f];
    forall j | 0 <= j < |more| ensures ReadyAt(more, start, j) {
      assert more[..j] == log[..j];
      if j < |log| {
        assert ReadyAt(log, start, j);
      } else {
        assert log[..j] == log;
      }
    }
  }

  lemma BelowMore(files: seq<File>, start: set<string>, s: set<string>, f: File)
    requires Below(files, start, s) && f in files && Ready(f, s)
    ensures Below(files, start, s + {f.name})
  {
    forall t: set<string> | start <= t && Closed(files, t) ensures s + {f.name} <= t {
      assert Ready(f, t);
    }
  }

  /** The entries are the files of the set, some of them taken, and taken ones are registered. */
  ghost predicate Entries(e: seq<Entry>, all: seq<File>, s: set<string>)
  {
    && |e| == |all|
    && forall i :: 0 <= i < |e| ==> EntryOf(e, all, s, i)
  }

  ghost predicate EntryOf(e: seq<Entry>, all: seq<File>, s: set<string>, i: nat)
    requires i < |e| == |all|
  {
    if e[i].Taken? then all[i].name in s else e[i].file == all[i]
  }

  /** Still to be registered. */
  predicate Open(e: Entry, s: set<string>)
  {
    e.Pending? && e.file.name !in s
  }

  /** Every open entry is among those the last pass counted. */
  ghost predicate Counted(e: seq<Entry>, s: set<string>, c: set<nat>)
  {
    forall i :: 0 <= i < |e| && Open(e[i], s) ==> i in c
  }

  /** Those counted lack a dependency. */
  ghost predicate Lacking(e: seq<Entry>, s: set<string>, c: set<nat>)
  {
    forall i <- c :: i < |e| && Open(e[i], s) && !Ready(e[i].file, s)
  }

  lemma EntriesTake(e: seq<Entry>, all: seq<File>, s: set<string>, i: nat)
    requires Entries(e, all, s) && i < |e| && e[i].Pending?
    ensures Entries(e[i := Taken], all, s + {e[i].file.name}) && i < |all| && all[i] == e[i].file
  {
    var s' := s + {e[i].file.name};
    assert EntryOf(e, all, s, i);
    var e' := e[i := Taken];
    forall k | 0 <= k < |e'| ensures EntryOf(e', all, s', k) {
      assert EntryOf(e, all, s, k);
    }
  }

  /** When nothing open is ready, the registered names are the least fixpoint. */
  lemma Fixpoint(e: seq<Entry>, all: seq<File>, start: set<string>, s: set<string>)
    requires Entries(e, all, s) && Below(all, start, s) && start <= s
    requires forall i :: 0 <= i < |e| && Open(e[i], s) ==> !Ready(e[i].file, s)
    ensures Least(all, start, s)
  {
    forall f <- all | Ready(f, s) ensures f.name in s {
      var i :| 0 <= i < |all| && all[i] == f;
      assert EntryOf(e, all, s, i);
    }
  }

  /** Sets of indices, one inside the other and as large, are the same. */
  lemma SameSize(c: set<nat>, p: set<nat>)
    requires c <= p && |c| == |p|
    ensures c == p
  {
    if c != p {
      var x :| x in p && x !in c;
      SizeBelow(c, p - {x});
    }
  }

  lemma {:induction false} SizeBelow(c: set<nat>, p: set<nat>)
    requires c <= p
    ensures |c| <= |p|
    decreases c
  {
    if c != {} {
      var x :| x in c;
      SizeBelow(c - {x}, p - {x});
    }
  }

  /** struct pbc_env: the names of the files that are registered. */
  class Env {
    var files: set<string>
    ghost const start: set<string>
    ghost var log: seq<File>

    ghost predicate Valid()
      reads this
    {
      files == start + Names(log) && InOrder(log, start)
    }

    constructor (start: set<string>)
      ensures Valid() && this.start == start && log == [] && files == start
    {
      files, log := start, [];
      this.start := start;
    }

    /** _check_file_name */
    method CheckFileName(file: File) returns (c: Check)
      ensures c == if file.name in files then Exist else if Ready(file, files) then Ok else Dependency
    {
      if file.name in files {
        return Exist;
      }
      for i := 0 to |file.dependency|
        invariant forall k :: 0 <= k < i ==> file.dependency[k] in files
      {
        if file.dependency[i] !in files {
          return Dependency;
        }
      }
      return Ok;
    }

    method Register(file: File)
      requires Valid() && Ready(file, files) && file.name !in files
      modifies this
      ensures Valid() && files == old(files) + {file.name} && log == old(log) + [file]
    {
      InOrderSnoc(log, start, file);
      NamesSnoc(log, file);
      files := files + {file.name};
      log := log + [file];
    }

    /** One entry of a pass; true when it is to be counted. */
    method VisitEntry(entries: array<Entry>, i: nat, ghost all: seq<File>, ghost base: set<string>) returns (count: bool)
      requires Valid() && i < entries.Length && Entries(entries[..], all, files) && Below(all, base, files)
      modifies this, entries
      ensures Valid() && Entries(entries[..], all, files) && Below(all, base, files)
      ensures if old(Open(entries[i], files) && Ready(entries[i].file, files)) then
                !count && files == old(files) + {old(entries[i].file.name)} && entries[..] == old(entries[..])[i := Taken]
              else
                entries[..] == old(entries[..]) && files == old(files)
                && (count <==> Open(entries[i], files) && !Ready(entries[i].file, files))
    {
      hide Entries, Below, InOrder, Names;
      count := false;
      if entries[i].Taken? {
        return;
      }
      var file := entries[i].file;
      var c := CheckFileName(file);
      match c {
        case Exist =>
        case Dependency => count := true;
        case Ok =>
          EntriesTake(entries[..], all, files, i);
          InFiles(all, i);
          BelowMore(all, base, files, file);
          Register(file);
          entries[i] := Taken;
      }
    }

    /**
     _register_no_dependency: one pass over the entries. prev are those the pass before counted; the new count
     leaves some of them out unless nothing could be registered.
     */
    method RegisterNoDependency(entries: array<Entry>, ghost all: seq<File>, ghost base: set<string>, ghost prev: set<nat>)
      returns (r: nat, ghost c: set<nat>)
      requires Valid() && Entries(entries[..], all, files) && Below(all, base, files) && base <= files
      requires Counted(entries[..], files, prev)
      modifies this, entries
      ensures Valid() && Entries(entries[..], all, files) && Below(all, base, files) && base <= files
      ensures r == |c| && c <= prev && Counted(entries[..], files, c)
      ensures c == prev ==> Lacking(entries[..], files, c)
    {
      hide Entries, Below, InOrder, Names, Valid, Pass, Apart, Counted;
      r, c := 0, {};
      PassStart(entries[..], files, prev);
      ghost var done: set<nat> := {};
      for i := 0 to entries.Length
        invariant Valid() && Entries(entries[..], all, files) && Below(all, base, files) && base <= files
        invariant r == |c| && c <= prev && Apart(c, done, prev, i)
        invariant Pass(entries[..], files, prev, c, i)
        invariant done == {} ==> Lacking(entries[..], files, c)
      {
        ghost var e, s := entries[..], files;
        var count := VisitEntry(entries, i, all, base);
        if count {
          r := r + 1;
          PassCount(e, s, prev, c, i);
          ApartCount(c, done, prev, i);
          c := c + {i};
        } else if Open(e[i], s) {
          PassTake(e, s, prev, c, i);
          ApartTake(c, done, prev, i);
          done := done + {i};
        } else {
          PassSkip(e, s, prev, c, i);
          ApartSkip(c, done, prev, i);
        }
      }
      if c == prev {
        NoneDone(c, done, prev, entries.Length);
      }
      PassEnd(entries[..], files, prev, c);
    }
  }

  /** Up to i the open entries are counted in c; from i on they are among those counted before. */
  ghost predicate Pass(e: seq<Entry>, s: set<string>, prev: set<nat>, c: set<nat>, i: nat)
  {
    && (forall k :: 0 <= k < |e| && k < i && Open(e[k], s) ==> k in c)
    && (forall k :: i <= k < |e| && Open(e[k], s) ==> k in prev)
    && forall k <- c :: k < i
  }

  lemma PassStart(e: seq<Entry>, s: set<string>, prev: set<nat>)
    requires Counted(e, s, prev)
    ensures Pass(e, s, prev, {}, 0) && Apart({}, {}, prev, 0)
  {
  }

  /** Those counted and those registered so far in a pass. */
  ghost predicate Apart(c: set<nat>, done: set<nat>, prev: set<nat>, i: nat)
  {
    c <= prev && done <= prev && c !! done && (forall k <- c :: k < i) && forall k <- done :: k < i
  }

  lemma ApartCount(c: set<nat>, done: set<nat>, prev: set<nat>, i: nat)
    requires Apart(c, done, prev, i) && i in prev
    ensures Apart(c + {i}, done, prev, i + 1)
  {
  }

  lemma ApartTake(c: set<nat>, done: set<nat>, prev: set<nat>, i: nat)
    requires Apart(c, done, prev, i) && i in prev
    ensures Apart(c, done + {i}, prev, i + 1)
  {
  }

  lemma ApartSkip(c: set<nat>, done: set<nat>, prev: set<nat>, i: nat)
    requires Apart(c, done, prev, i)
    ensures Apart(c, done, prev, i + 1)
  {
  }

  /** Whatever was registered is not counted any more. */
  lemma NoneDone(c: set<nat>, done: set<nat>, prev: set<nat>, i: nat)
    requires Apart(c, done, prev, i) && c == prev
    ensures done == {}
  {
  }

  lemma PassCount(e: seq<Entry>, s: set<string>, prev: set<nat>, c: set<nat>, i: nat)
    requires Pass(e, s, prev, c, i) && i < |e| && Open(e[i], s)
    ensures Pass(e, s, prev, c + {i}, i + 1) && i !in c && i in prev
  {
  }

  lemma PassTake(e: seq<Entry>, s: set<string>, prev: set<nat>, c: set<nat>, i: nat)
    requires Pass(e, s, prev, c, i) && i < |e| && Open(e[i], s)
    ensures Pass(e[i := Taken], s + {e[i].file.name}, prev, c, i + 1) && i in prev && i !in c
  {
  }

  lemma PassSkip(e: seq<Entry>, s: set<string>, prev: set<nat>, c: set<nat>, i: nat)
    requires Pass(e, s, prev, c, i) && i < |e| && !Open(e[i], s)
    ensures Pass(e, s, prev, c, i + 1)
  {
  }

  lemma PassEnd(e: seq<Entry>, s: set<string>, prev: set<nat>, c: set<nat>)
    requires Pass(e, s, prev, c, |e|)
    ensures Counted(e, s, c)
  {
  }

  lemma InFiles(all: seq<File>, i: nat)
    requires i < |all|
    ensures all[i] in all
  {
  }

  datatype Outcome = Registered | Empty | DependencyError

  lemma Begin(all: seq<File>, e: seq<Entry>, s: set<string>)
    requires |e| == |all| && forall i :: 0 <= i < |e| ==> e[i] == Pending(all[i])
    ensures Entries(e, all, s) && Below(all, s, s)
  {
  }

  /** The indices below n. */
  function Indices(n: nat): (r: set<nat>)
    ensures |r| == n && forall i: nat :: i in r <==> i < n
  {
    if n == 0 then {} else Indices(n - 1) + {n - 1}
  }

  /** Registered or not, a pass that counts as many as the one before ends at the least fixpoint. */
  lemma Stuck(e: seq<Entry>, all: seq<File>, base: set<string>, s: set<string>, c: set<nat>)
    requires Entries(e, all, s) && Below(all, base, s) && base <= s && Counted(e, s, c) && Lacking(e, s, c)
    ensures Least(all, base, s) && (c != {} ==> !(Names(all) <= s))
  {
    Fixpoint(e, all, base, s);
    if c != {} {
      var i :| i in c;
      assert EntryOf(e, all, s, i);
      assert all[i] in all && all[i].name in Names(all);
    }
  }

  lemma Finished(e: seq<Entry>, all: seq<File>, base: set<string>, s: set<string>)
    requires Entries(e, all, s) && Below(all, base, s) && base <= s && Counted(e, s, {})
    ensures Least(all, base, s) && Names(all) <= s
  {
    Fixpoint(e, all, base, s);
    forall f <- all ensures f.name in s {
      var i :| 0 <= i < |all| && all[i] == f;
      assert EntryOf(e, all, s, i);
    }
  }

  /**
   pbc_register, after the set has been opened. It ends after at most as many passes as there are files; the
   names registered are the least fixpoint of the dependency rule; and it succeeds exactly when all files are
   among them, so that after an error every file left still lacks a dependency.
   */
  method PbcRegister(p: Env, all: seq<File>) returns (o: Outcome, ghost passes: nat)
    requires p.Valid()
    modifies p
    ensures p.Valid() && passes <= |all| && old(p.files) <= p.files
    ensures o == Empty <==> |all| == 0
    ensures o == Empty ==> p.files == old(p.files)
    ensures Least(all, old(p.files), p.files)
    ensures |all| > 0 ==> (o == Registered <==> Names(all) <= p.files)
    ensures o == DependencyError ==> forall f <- all :: f.name !in p.files ==> !Ready(f, p.files)
  {
    hide Entries, Below, InOrder, Counted, Lacking, Least;
    passes := 0;
    var n := |all|;
    ghost var base := p.files;
    if n == 0 {
      NothingToDo(base);
      return Empty, 0;
    }
    var entries := new Entry[n](i requires 0 <= i < n => Pending(all[i]));
    Begin(all, entries[..], base);
    var r := n;
    ghost var prev := Indices(n);
    CountedAll(entries[..], base, prev);
    while true
      invariant p.Valid() && Entries(entries[..], all, p.files) && Below(all, base, p.files) && base <= p.files
      invariant Counted(entries[..], p.files, prev) && r == |prev| && 0 < r && passes + r <= n
      decreases r
    {
      ghost var c;
      var rr;
      rr, c := p.RegisterNoDependency(entries, all, base, prev);
      passes := passes + 1;
      SizeBelow(c, prev);
      if rr == r {
        SameSize(c, prev);
        Stuck(entries[..], all, base, p.files, c);
        LeastMeans(all, base, p.files);
        return DependencyError, passes;
      }
      r, prev := rr, c;
      if r <= 0 {
        break;
      }
    }
    Finished(entries[..], all, base, p.files);
    return Registered, passes;
  }

  lemma NothingToDo(base: set<string>)
    ensures Least([], base, base)
  {
  }

  lemma CountedAll(e: seq<Entry>, s: set<string>, c: set<nat>)
    requires forall i: nat :: i in c <==> i < |e|
    ensures Counted(e, s, c)
  {
  }

  lemma LeastMeans(all: seq<File>, base: set<string>, s: set<string>)
    requires Least(all, base, s)
    ensures forall f <- all :: f.name !in s ==> !Ready(f, s)
  {
  }
}
