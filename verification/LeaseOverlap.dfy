/** When can two hosts of one session write at once? Exactly when one of them never got
    its lock. Also: every release and every exit can complete. */
module LeaseOverlap {
  import opened Options
  import opened Leases

  // ----- what steps can reach -----

  ghost predicate Path(w: World, ls: seq<Label>, w': World)
    decreases |ls|
  {
    if ls == [] then w' == w else Enabled(w, ls[0]) && Path(Next(w, ls[0]), ls[1..], w')
  }

  ghost predicate Reaches(w: World, w': World) {
    exists ls :: Path(w, ls, w')
  }

  lemma {:induction false} PathJoin(w: World, ls: seq<Label>, w1: World, ls': seq<Label>, w2: World)
    requires Path(w, ls, w1) && Path(w1, ls', w2)
    ensures Path(w, ls + ls', w2)
    decreases |ls|
  {
    if ls == [] {
      assert [] + ls' == ls';
    } else {
      PathJoin(Next(w, ls[0]), ls[1..], w1, ls', w2);
      assert (ls + ls')[1..] == ls[1..] + ls';
    }
  }

  lemma Stay(w: World)
    ensures Reaches(w, w)
  {
    assert Path(w, [], w);
  }

  lemma Step(w0: World, w: World, l: Label) returns (w': World)
    requires Reaches(w0, w) && Inv(w) && Enabled(w, l)
    ensures w' == Next(w, l) && Reaches(w0, w') && Inv(w')
  {
    w' := Next(w, l);
    var ls :| Path(w0, ls, w);
    OneStep(w, l);
    PathJoin(w0, ls, w, [l], w');
    InvStep(w, l);
  }

  /** What no step takes back. */
  ghost predicate Later(w: World, w': World) {
    && |w.leases| <= |w'.leases|
    && (forall n :: 0 <= n < |w.leases| ==>
      w'.leases[n].sid == w.leases[n].sid && (w.leases[n].locked ==> w'.leases[n].locked))
    && (w.main == Exiting || w.main == Exited ==> w'.main == Exiting || w'.main == Exited)
  }

  lemma LaterStep(w: World, l: Label)
    requires Inv(w) && Enabled(w, l)
    ensures Later(w, Next(w, l))
  {}

  lemma {:induction false} PathLater(w: World, ls: seq<Label>, w': World)
    requires Inv(w) && Path(w, ls, w')
    ensures Inv(w') && Later(w, w')
    decreases |ls|
  {
    if ls != [] {
      InvStep(w, ls[0]);
      LaterStep(w, ls[0]);
      PathLater(Next(w, ls[0]), ls[1..], w');
    }
  }

  // ----- draining -----

  /** Only lease b, its lock and the place it is accounted for differ. */
  ghost predicate OnlyLease(w: World, w': World, b: nat) {
    && |w'.leases| == |w.leases| && w'.main == w.main && w'.current == w.current && w'.pending == w.pending
    && (forall n :: 0 <= n < |w.leases| && n != b ==> w'.leases[n] == w.leases[n])
  }

  /** A step of lease b's own tasks, children or release task. */
  predicate IsOwn(l: Label, b: nat) {
    l == TaskEnds(b) || l == ChildEnds(b) || l == HostDown(b) || l == ChildrenJoined(b)
  }

  ghost predicate ReachesAlone(w: World, w': World, b: nat) {
    exists ls :: Path(w, ls, w') && forall l <- ls :: IsOwn(l, b)
  }

  lemma OwnStep(w0: World, w: World, l: Label, b: nat) returns (w': World)
    requires ReachesAlone(w0, w, b) && Inv(w) && Enabled(w, l) && IsOwn(l, b)
    ensures w' == Next(w, l) && ReachesAlone(w0, w', b) && Inv(w')
  {
    w' := Next(w, l);
    var ls :| Path(w0, ls, w) && forall l <- ls :: IsOwn(l, b);
    OneStep(w, l);
    PathJoin(w0, ls, w, [l], w');
    assert forall m <- ls + [l] :: IsOwn(m, b);
    InvStep(w, l);
  }

  lemma OneStep(w: World, l: Label)
    requires Enabled(w, l)
    ensures Path(w, [l], Next(w, l))
  {
    assert Path(Next(w, l), [], Next(w, l)) && [l][1..] == [];
  }

  lemma {:induction false} TasksEnd(w0: World, w: World, b: nat) returns (w': World)
    requires ReachesAlone(w0, w, b) && Inv(w) && b < |w.leases|
    ensures ReachesAlone(w0, w', b) && Inv(w') && OnlyLease(w, w', b)
    ensures w'.locks == w.locks && w'.leases[b] == w.leases[b].(tasks := 0)
    decreases w.leases[b].tasks
  {
    w' := w;
    if w.leases[b].tasks > 0 {
      w' := OwnStep(w0, w, TaskEnds(b), b);
      w' := TasksEnd(w0, w', b);
    }
  }

  lemma {:induction false} ChildrenEnd(w0: World, w: World, b: nat) returns (w': World)
    requires ReachesAlone(w0, w, b) && Inv(w) && b < |w.leases|
    ensures ReachesAlone(w0, w', b) && Inv(w') && OnlyLease(w, w', b)
    ensures w'.locks == w.locks && w'.leases[b] == w.leases[b].(children := 0)
    decreases w.leases[b].children
  {
    w' := w;
    if w.leases[b].children > 0 {
      w' := OwnStep(w0, w, ChildEnds(b), b);
      w' := ChildrenEnd(w0, w', b);
    }
  }

  /** A release can always complete by the steps of its own tasks and children alone, and
      then its lock is free. */
  lemma ReleaseCompletes(w0: World, w: World, b: nat) returns (w': World)
    requires Reaches(w0, w) && Inv(w) && b < |w.leases| && w.leases[b].stage != Live
    ensures Reaches(w0, w') && Inv(w') && OnlyLease(w, w', b) && w'.leases[b].stage == Finished
    ensures ReachesAlone(w, w', b)
    ensures w.leases[b].HoldsLock() ==> w'.locks == w.locks - {w.leases[b].sid}
    ensures !w.leases[b].HoldsLock() ==> w'.locks == w.locks
  {
    w' := Drained(w, b);
    var ls :| Path(w0, ls, w);
    var own :| Path(w, own, w') && forall l <- own :: IsOwn(l, b);
    PathJoin(w0, ls, w, own, w');
  }

  lemma Drained(w: World, b: nat) returns (w': World)
    requires Inv(w) && b < |w.leases| && w.leases[b].stage != Live
    ensures ReachesAlone(w, w', b) && Inv(w') && OnlyLease(w, w', b) && w'.leases[b].stage == Finished
    ensures w.leases[b].HoldsLock() ==> w'.locks == w.locks - {w.leases[b].sid}
    ensures !w.leases[b].HoldsLock() ==> w'.locks == w.locks
  {
    assert Path(w, [], w);
    w' := w;
    if w.leases[b].stage == Finished { return; }
    w' := TasksEnd(w, w', b);
    if w'.leases[b].stage == Draining { w' := OwnStep(w, w', HostDown(b), b); }
    w' := ChildrenEnd(w, w', b);
    w' := OwnStep(w, w', ChildrenJoined(b), b);
  }

  /** From wherever exit has begun, it can complete: no release waits on another. */
  lemma {:induction false} ExitCompletes(w0: World, w: World) returns (w': World)
    requires Reaches(w0, w) && Inv(w) && w.main == Exiting
    ensures Reaches(w0, w') && Inv(w') && w'.main == Exited
    decreases |w.pending|
  {
    w' := w;
    if w.pending == [] {
      w' := Step(w0, w', Exit);
    } else {
      w' := ReleaseCompletes(w0, w', w.pending[0]);
      w' := Step(w0, w', JoinNext);
      w' := ExitCompletes(w0, w');
    }
  }

  // ----- overlap -----

  /** The current lease is a second host of lease a's session: it writes while a is not
      finished. */
  ghost predicate Overlapped(w: World, a: nat) {
    && a < |w.leases| && w.leases[a].stage != Finished
    && w.current.Some? && w.current.value < |w.leases| && w.current.value != a
    && w.leases[w.current.value].sid == w.leases[a].sid && w.leases[w.current.value].Writing()
  }

  /** Lease a, with its writers, is still there and unfinished. */
  ghost predicate StillThere(w: World, w': World, a: nat)
    requires a < |w.leases|
  {
    && a < |w'.leases| && w'.leases[a] == w.leases[a].(stage := w'.leases[a].stage)
    && w'.leases[a].stage != Finished
  }

  /** Its session can get a new host while lease a, with all its writers, is there. */
  ghost predicate CanOverlap(w: World, a: nat)
    requires a < |w.leases|
  {
    exists w' :: Reaches(w, w') && Overlapped(w', a) && StillThere(w, w', a)
  }

  lemma LockedIsAlone(w: World, a: nat)
    requires Inv(w) && Overlapped(w, a)
    ensures !w.leases[a].locked && w.main != Exiting && w.main != Exited
  {
    assert w.leases[w.current.value].HoldsLock();
  }

  lemma ToIdle(w0: World, w: World, a: nat) returns (w': World)
    requires Reaches(w0, w) && Inv(w) && a < |w.leases| && w.leases[a].stage != Finished && !w.leases[a].locked
    requires w.main != Exiting && w.main != Exited
    ensures Reaches(w0, w') && Inv(w') && StillThere(w, w', a) && w'.main == Idle
  {
    match w.main
    case Idle => w' := w;
    case Admitted(_) => w' := Step(w0, w, BuildFails);
    case Built(n) =>
      if w.leases[n].locked { w' := Step(w0, w, Install); } else { w' := Step(w0, w, LockFreshFails); }
  }

  lemma {:induction false} Unused(used: set<nat>) returns (n: nat)
    ensures n !in used
  {
    n := 0;
    if used != {} {
      var top := Largest(used);
      n := top + 1;
    }
  }

  lemma {:induction false} Largest(used: set<nat>) returns (top: nat)
    requires used != {}
    ensures top in used && forall n <- used :: n <= top
    decreases |used|
  {
    top :| top in used;
    var rest := used - {top};
    if rest != {} {
      var other := Largest(rest);
      assert forall n <- used :: n == top || n in rest;
      if other > top { top := other; }
    }
  }

  /** A session whose lock is free is admitted, built and installed. */
  lemma NewCurrent(w0: World, w: World, sid: nat, tasks: nat, children: nat) returns (w': World)
    requires Reaches(w0, w) && Inv(w) && w.main == Idle && sid !in w.locks
    ensures Reaches(w0, w') && Inv(w') && w'.main == Idle
    ensures w' == Next(Next(Next(w, Admit(sid)), Build(tasks, children)), Install)
    ensures w'.current == Some(|w.leases|) && |w'.leases| == |w.leases| + 1
    ensures w'.leases[|w.leases|] == Lease(sid, true, tasks, children, Live)
    ensures forall n :: 0 <= n < |w.leases| && w.current != Some(n) ==> w'.leases[n] == w.leases[n]
  {
    w' := Step(w0, w, Admit(sid));
    w' := Step(w0, w', Build(tasks, children));
    w' := Step(w0, w', Install);
  }

  /** The session's locked host, if it is current, gives way to a host of another. */
  lemma CurrentGivesWay(w0: World, w: World, a: nat) returns (w': World)
    requires Reaches(w0, w) && Inv(w) && a < |w.leases| && w.leases[a].stage != Finished && !w.leases[a].locked
    requires w.main == Idle
    ensures Reaches(w0, w') && Inv(w') && StillThere(w, w', a) && w'.main == Idle
    ensures w'.current.Some? ==> w'.leases[w'.current.value].sid != w.leases[a].sid
  {
    w' := w;
    if w.current.Some? && w.leases[w.current.value].sid == w.leases[a].sid {
      assert w.leases[w.current.value].HoldsLock();
      var sid := Unused(w.locks.Keys);
      w' := NewCurrent(w0, w, sid, 0, 0);
    }
  }

  lemma LockFrees(w0: World, w: World, a: nat) returns (w': World)
    requires Reaches(w0, w) && Inv(w) && a < |w.leases| && w.leases[a].stage != Finished && !w.leases[a].locked
    requires w.main == Idle || w.main == Exiting
    requires w.current.Some? ==> w.leases[w.current.value].sid != w.leases[a].sid
    ensures Reaches(w0, w') && Inv(w') && StillThere(w, w', a) && w'.main == w.main
    ensures w.leases[a].sid !in w'.locks
  {
    w' := w;
    var sid := w.leases[a].sid;
    if sid in w.locks {
      match w.locks[sid]
      case Foreign => w' := Step(w0, w, ForeignReleases(sid));
      case Held(b) =>
        assert w.leases[b].HoldsLock() && Accounted(w, b);
        w' := ReleaseCompletes(w0, w, b);
    }
  }

  /** The session is resumed: its new host writes while lease a is as it was. */
  lemma Resumed(w0: World, w: World, a: nat, tasks: nat, children: nat) returns (w': World)
    requires Reaches(w0, w) && Inv(w) && a < |w.leases| && w.leases[a].stage != Finished
    requires w.main == Idle && w.leases[a].sid !in w.locks && tasks > 0
    ensures Reaches(w0, w') && Inv(w') && a < |w'.leases| && w'.leases[a] == w.leases[a] && Overlapped(w', a)
    ensures w' == Next(Next(Next(w, Admit(w.leases[a].sid)), Build(tasks, children)), Install)
  {
    assert !w.leases[a].HoldsLock();
    w' := NewCurrent(w0, w, w.leases[a].sid, tasks, children);
  }

  /** The main thread is idle, or exiting, and the session's lock is free. */
  lemma SessionFrees(w: World, a: nat) returns (w': World)
    requires Inv(w) && a < |w.leases| && w.leases[a].stage != Finished && !w.leases[a].locked
    ensures Reaches(w, w') && Inv(w') && StillThere(w, w', a) && w.leases[a].sid !in w'.locks
    ensures w.main != Exiting ==> w'.main == Idle
  {
    Stay(w);
    w' := w;
    assert Accounted(w, a);
    if w.main != Exiting {
      w' := ToIdle(w, w', a);
      w' := CurrentGivesWay(w, w', a);
    }
    w' := LockFrees(w, w', a);
  }

  /** In this process: at any point of any run, the session of an unfinished lease can
      get a new host of this process while that lease and all its writers are there if
      and only if the lease was never locked and exit has not begun. */
  lemma OverlapExactly(ls: seq<Label>, ws: seq<World>, n: nat, a: nat)
    requires IsRun(ls, ws) && n <= |ls| && a < |ws[n].leases| && ws[n].leases[a].stage != Finished
    ensures CanOverlap(ws[n], a) <==> !ws[n].leases[a].locked && ws[n].main != Exiting && ws[n].main != Exited
  {
    RunInv(ls, ws, n);
    var w := ws[n];
    if CanOverlap(w, a) {
      var w' :| Reaches(w, w') && Overlapped(w', a) && StillThere(w, w', a);
      var steps :| Path(w, steps, w');
      PathLater(w, steps, w');
      LockedIsAlone(w', a);
    }
    if !w.leases[a].locked && w.main != Exiting && w.main != Exited {
      var w1 := SessionFrees(w, a);
      var w2 := Resumed(w, w1, a, 1, 0);
      assert StillThere(w, w2, a);
    }
  }

  /** Another process can take the session's lock, and so host it, while lease a, with
      all its writers, is there. */
  ghost predicate CanBeTaken(w: World, a: nat)
    requires a < |w.leases|
  {
    exists w' :: Reaches(w, w') && StillThere(w, w', a)
      && w.leases[a].sid in w'.locks && w'.locks[w.leases[a].sid] == Foreign
  }

  /** In any process: at any point of any run, exit included, another process can take
      the session of an unfinished lease while that lease and all its writers are there
      if and only if the lease was never locked. */
  lemma TakenExactly(ls: seq<Label>, ws: seq<World>, n: nat, a: nat)
    requires IsRun(ls, ws) && n <= |ls| && a < |ws[n].leases| && ws[n].leases[a].stage != Finished
    ensures CanBeTaken(ws[n], a) <==> !ws[n].leases[a].locked
  {
    RunInv(ls, ws, n);
    var w := ws[n];
    if CanBeTaken(w, a) {
      var w' :| Reaches(w, w') && StillThere(w, w', a)
        && w.leases[a].sid in w'.locks && w'.locks[w.leases[a].sid] == Foreign;
      var steps :| Path(w, steps, w');
      PathLater(w, steps, w');
      assert w.leases[a].locked ==> w'.leases[a].HoldsLock();
    }
    if !w.leases[a].locked {
      var w1 := SessionFrees(w, a);
      var w2 := Step(w, w1, ForeignAcquires(w.leases[a].sid));
      assert StillThere(w, w2, a);
    }
  }
}
