/** The session write-lease protocol as interleaved steps: admission and builds on the
    main thread, host tasks and children that end when they end, release tasks that drop
    a lock only after both, other processes contending for the same locks, and exit. */
module Leases {
  import opened Options

  /** A release task joins the host's tasks, then the children, then drops the lock. */
  datatype Stage = Live | Draining | JoiningChildren | Finished

  /** locked says the lease was built around its session's lock. */
  datatype Lease = Lease(sid: nat, locked: bool, tasks: nat, children: nat, stage: Stage) {
    predicate HoldsLock() { locked && stage != Finished }
    predicate Writing() { tasks > 0 || children > 0 }
    function BeginRelease(): Lease { this.(stage := Draining) }
  }

  /** Who holds a session's lock: another process, an admission whose host is not built
      yet, or a lease of this process. */
  datatype Owner = Foreign | Admission | Held(lease: nat)

  datatype Main = Idle | Admitted(sid: nat) | Built(lease: nat) | Exiting | Exited

  datatype World = World(
    locks: map<nat, Owner>,
    leases: seq<Lease>,
    current: Option<nat>,
    pending: seq<nat>,
    joined: set<nat>,
    main: Main)

  datatype Label =
    | Admit(sid: nat)
    | BuildFails
    | Build(tasks: nat, children: nat)
    | BuildFresh(sid: nat, tasks: nat, children: nat)
    | LockFresh
    | LockFreshFails
    | Install
    | TaskEnds(lease: nat)
    | ChildEnds(lease: nat)
    | ChildStarts(lease: nat)
    | HostDown(lease: nat)
    | ChildrenJoined(lease: nat)
    | BeginExit
    | JoinNext
    | Exit
    | ForeignAcquires(sid: nat)
    | ForeignReleases(sid: nat)

  /** No lease of this process has ever used the session id. */
  predicate IsFresh(w: World, sid: nat) {
    sid !in w.locks && forall l :: 0 <= l < |w.leases| ==> w.leases[l].sid != sid
  }

  predicate Enabled(w: World, l: Label) {
    match l
    case Admit(sid) => w.main == Idle && sid !in w.locks
    case BuildFails => w.main.Admitted?
    case Build(_, _) => w.main.Admitted?
    case BuildFresh(sid, _, _) => w.main == Idle && IsFresh(w, sid)
    case LockFresh =>
      w.main.Built? && w.main.lease < |w.leases| && !w.leases[w.main.lease].locked
      && w.leases[w.main.lease].sid !in w.locks
    case LockFreshFails => w.main.Built? && w.main.lease < |w.leases| && !w.leases[w.main.lease].locked
    case Install => w.main.Built? && w.main.lease < |w.leases| && w.leases[w.main.lease].locked
      && (w.current.Some? ==> w.current.value < |w.leases|)
    case TaskEnds(n) => n < |w.leases| && w.leases[n].tasks > 0
    case ChildEnds(n) => n < |w.leases| && w.leases[n].children > 0
    case ChildStarts(n) => n < |w.leases| && w.leases[n].Writing()
    case HostDown(n) => n < |w.leases| && w.leases[n].stage == Draining && w.leases[n].tasks == 0
    case ChildrenJoined(n) => n < |w.leases| && w.leases[n].stage == JoiningChildren && w.leases[n].children == 0
    case BeginExit => w.main == Idle && (w.current.Some? ==> w.current.value < |w.leases|)
    case JoinNext =>
      w.main == Exiting && w.pending != [] && w.pending[0] < |w.leases| && w.leases[w.pending[0]].stage == Finished
    case Exit => w.main == Exiting && w.pending == []
    case ForeignAcquires(sid) => sid !in w.locks
    case ForeignReleases(sid) => sid in w.locks && w.locks[sid] == Foreign
  }

  function Set(w: World, n: nat, lease: Lease): World
    requires n < |w.leases|
  {
    w.(leases := w.leases[n := lease])
  }

  /** The current lease moves into a release task whose handle is kept. */
  function ReleaseCurrent(w: World): World
    requires w.current.Some? ==> w.current.value < |w.leases|
  {
    if w.current.None? then w
    else
      var n := w.current.value;
      Set(w, n, w.leases[n].BeginRelease()).(current := None, pending := w.pending + [n])
  }

  function Next(w: World, l: Label): World
    requires Enabled(w, l)
  {
    match l
    case Admit(sid) => w.(locks := w.locks[sid := Admission], main := Admitted(sid))
    case BuildFails => w.(locks := w.locks - {w.main.sid}, main := Idle)
    case Build(tasks, children) =>
      var id := |w.leases|;
      w.(locks := w.locks[w.main.sid := Held(id)],
         leases := w.leases + [Lease(w.main.sid, true, tasks, children, Live)],
         main := Built(id))
    case BuildFresh(sid, tasks, children) =>
      w.(leases := w.leases + [Lease(sid, false, tasks, children, Live)], main := Built(|w.leases|))
    case LockFresh =>
      var n := w.main.lease;
      Set(w, n, w.leases[n].(locked := true)).(locks := w.locks[w.leases[n].sid := Held(n)])
    case LockFreshFails =>
      var n := w.main.lease;
      Set(w, n, w.leases[n].BeginRelease()).(pending := w.pending + [n], main := Idle)
    case Install => ReleaseCurrent(w).(current := Some(w.main.lease), main := Idle)
    case TaskEnds(n) => Set(w, n, w.leases[n].(tasks := w.leases[n].tasks - 1))
    case ChildEnds(n) => Set(w, n, w.leases[n].(children := w.leases[n].children - 1))
    case ChildStarts(n) => Set(w, n, w.leases[n].(children := w.leases[n].children + 1))
    case HostDown(n) => Set(w, n, w.leases[n].(stage := JoiningChildren))
    case ChildrenJoined(n) =>
      var done := Set(w, n, w.leases[n].(stage := Finished));
      if w.leases[n].locked then done.(locks := w.locks - {w.leases[n].sid}) else done
    case BeginExit => ReleaseCurrent(w).(main := Exiting)
    case JoinNext => w.(pending := w.pending[1..], joined := w.joined + {w.pending[0]})
    case Exit => w.(main := Exited)
    case ForeignAcquires(sid) => w.(locks := w.locks[sid := Foreign])
    case ForeignReleases(sid) => w.(locks := w.locks - {sid})
  }

  /** Nothing of this process holds anything yet. */
  predicate IsStart(w: World) {
    w.leases == [] && w.current == None && w.pending == [] && w.joined == {} && w.main == Idle
    && forall sid <- w.locks :: w.locks[sid] == Foreign
  }

  // ----- invariant -----

  /** The lock table and the leases agree on who holds what. */
  ghost predicate LocksAgree(w: World) {
    && (forall n :: 0 <= n < |w.leases| && w.leases[n].HoldsLock() ==>
      w.leases[n].sid in w.locks && w.locks[w.leases[n].sid] == Held(n))
    && (forall sid :: sid in w.locks && w.locks[sid].Held? ==>
      && w.locks[sid].lease < |w.leases|
      && w.leases[w.locks[sid].lease].sid == sid && w.leases[w.locks[sid].lease].HoldsLock())
    && (forall sid :: sid in w.locks ==> (w.locks[sid] == Admission <==> w.main == Admitted(sid)))
    && (w.main.Admitted? ==> w.main.sid in w.locks)
  }

  /** A release task is past joining what its stage says it joined. */
  ghost predicate StagesSound(w: World) {
    forall n :: 0 <= n < |w.leases| ==>
      && (w.leases[n].stage == JoiningChildren ==> w.leases[n].tasks == 0)
      && (w.leases[n].stage == Finished ==> !w.leases[n].Writing())
  }

  /** Where a lease is accounted for. */
  predicate Accounted(w: World, n: nat) {
    w.current == Some(n) || w.main == Built(n) || n in w.pending || n in w.joined
  }

  /** Every lease ever built is current, on its way to be installed, pending or joined. */
  ghost predicate NoneDropped(w: World) {
    && (forall n :: 0 <= n < |w.leases| ==> Accounted(w, n))
    && (forall k :: 0 <= k < |w.pending| ==> w.pending[k] < |w.leases| && w.leases[w.pending[k]].stage != Live)
    && (forall n <- w.joined :: n < |w.leases| && w.leases[n].stage == Finished)
    && (w.current.Some? ==>
      && w.current.value < |w.leases| && w.leases[w.current.value].stage == Live
      && w.leases[w.current.value].locked && w.main != Built(w.current.value))
    && (w.main.Built? ==> w.main.lease < |w.leases| && w.leases[w.main.lease].stage == Live)
    && ((w.main == Exiting || w.main == Exited) ==> w.current == None)
    && (w.main == Exited ==> w.pending == [])
  }

  /** A host built before its lock writes under a session id no other lease has. */
  ghost predicate FreshAlone(w: World) {
    w.main.Built? && w.main.lease < |w.leases| && !w.leases[w.main.lease].locked ==>
      (forall n :: 0 <= n < |w.leases| && n != w.main.lease ==> w.leases[n].sid != w.leases[w.main.lease].sid)
  }

  ghost predicate Inv(w: World) {
    LocksAgree(w) && StagesSound(w) && NoneDropped(w) && FreshAlone(w)
  }

  lemma LocksAgreeStep(w: World, l: Label)
    requires Inv(w) && Enabled(w, l)
    ensures LocksAgree(Next(w, l))
  {
    if l.Build? {
      LocksAgreeBuild(w, l);
    } else if l.LockFresh? {
      LocksAgreeFresh(w);
    } else if l.ChildrenJoined? {
      LocksAgreeDrop(w, l.lease);
    } else if l.Admit? || l.BuildFails? || l.ForeignAcquires? || l.ForeignReleases? {
      LocksAgreeOther(w, l);
    } else {
      LocksAgreeKept(w, Next(w, l));
    }
  }

  /** A step that changes the owner of one lock no lease holds. */
  lemma LocksAgreeOther(w: World, l: Label)
    requires LocksAgree(w) && Enabled(w, l)
    requires l.Admit? || l.BuildFails? || l.ForeignAcquires? || l.ForeignReleases?
    ensures LocksAgree(Next(w, l))
  {}

  /** A step that changes no session, no lock and no claim on one. */
  lemma LocksAgreeKept(w: World, w': World)
    requires LocksAgree(w) && w'.locks == w.locks && |w'.leases| >= |w.leases|
    requires w'.main == w.main || (!w.main.Admitted? && !w'.main.Admitted?)
    requires forall n :: 0 <= n < |w.leases| ==>
      w'.leases[n].sid == w.leases[n].sid && w'.leases[n].HoldsLock() == w.leases[n].HoldsLock()
    requires forall n :: |w.leases| <= n < |w'.leases| ==> !w'.leases[n].HoldsLock()
    ensures LocksAgree(w')
  {}

  lemma LocksAgreeBuild(w: World, l: Label)
    requires Inv(w) && l.Build? && Enabled(w, l)
    ensures LocksAgree(Next(w, l))
  {
    var w' := Next(w, l);
    forall n | 0 <= n < |w'.leases| && w'.leases[n].HoldsLock()
      ensures w'.leases[n].sid in w'.locks && w'.locks[w'.leases[n].sid] == Held(n)
    {
      if n < |w.leases| { assert w.leases[n].HoldsLock(); }
    }
  }

  lemma LocksAgreeFresh(w: World)
    requires Inv(w) && Enabled(w, LockFresh)
    ensures LocksAgree(Next(w, LockFresh))
  {
    var w' := Next(w, LockFresh);
    forall n | 0 <= n < |w'.leases| && w'.leases[n].HoldsLock()
      ensures w'.leases[n].sid in w'.locks && w'.locks[w'.leases[n].sid] == Held(n)
    {
      if n != w.main.lease { assert w.leases[n].HoldsLock(); }
    }
  }

  lemma LocksAgreeDrop(w: World, n: nat)
    requires Inv(w) && Enabled(w, ChildrenJoined(n))
    ensures LocksAgree(Next(w, ChildrenJoined(n)))
  {
    var w' := Next(w, ChildrenJoined(n));
    forall k | 0 <= k < |w'.leases| && w'.leases[k].HoldsLock()
      ensures w'.leases[k].sid in w'.locks && w'.locks[w'.leases[k].sid] == Held(k)
    {
      assert k != n && w.leases[k].HoldsLock();
    }
  }

  lemma StagesSoundStep(w: World, l: Label)
    requires StagesSound(w) && NoneDropped(w) && Enabled(w, l)
    ensures StagesSound(Next(w, l))
  {}

  lemma NoneDroppedStep(w: World, l: Label)
    requires Inv(w) && Enabled(w, l)
    ensures NoneDropped(Next(w, l))
  {
    if l.Install? || l.BeginExit? {
      NoneDroppedRelease(w, l);
    } else if l.LockFreshFails? {
      NoneDroppedTrack(w);
    } else if l.JoinNext? {
      NoneDroppedJoin(w);
    } else if l.Build? || l.BuildFresh? || l.LockFresh? {
      NoneDroppedBuild(w, l);
    } else {
      NoneDroppedKept(w, l);
    }
  }

  lemma NoneDroppedBuild(w: World, l: Label)
    requires Inv(w) && Enabled(w, l) && (l.Build? || l.BuildFresh? || l.LockFresh?)
    ensures NoneDropped(Next(w, l))
  {
    AccountedKept(w, Next(w, l));
  }

  /** A step that moves no lease: the releases only go forward. */
  lemma NoneDroppedKept(w: World, l: Label)
    requires Inv(w) && Enabled(w, l)
    requires !l.Build? && !l.BuildFresh? && !l.LockFresh?
    requires !l.Install? && !l.BeginExit? && !l.LockFreshFails? && !l.JoinNext?
    ensures NoneDropped(Next(w, l))
  {
    AccountedKept(w, Next(w, l));
  }

  lemma AccountedKept(w: World, w': World)
    requires forall n :: 0 <= n < |w.leases| ==> Accounted(w, n)
    requires w'.current == w.current && w'.pending == w.pending && w'.joined == w.joined
    requires w.main.Built? ==> w'.main == w.main
    requires |w'.leases| == |w.leases| || (|w'.leases| == |w.leases| + 1 && w'.main == Built(|w.leases|))
    ensures forall n :: 0 <= n < |w'.leases| ==> Accounted(w', n)
  {
    forall n | 0 <= n < |w'.leases| ensures Accounted(w', n) {
      if n < |w.leases| { assert Accounted(w, n); }
    }
  }

  lemma NoneDroppedRelease(w: World, l: Label)
    requires Inv(w) && (l.Install? || l.BeginExit?) && Enabled(w, l)
    ensures NoneDropped(Next(w, l))
  {
    var w' := Next(w, l);
    forall n | 0 <= n < |w'.leases| ensures Accounted(w', n) {
      assert Accounted(w, n);
      if n in w.pending { assert n in w.pending + [if w.current.Some? then w.current.value else 0]; }
      if w.current == Some(n) { assert w'.pending[|w.pending|] == n; }
    }
  }

  lemma NoneDroppedTrack(w: World)
    requires Inv(w) && Enabled(w, LockFreshFails)
    ensures NoneDropped(Next(w, LockFreshFails))
  {
    var w' := Next(w, LockFreshFails);
    assert w'.pending[|w.pending|] == w.main.lease;
    forall n | 0 <= n < |w'.leases| ensures Accounted(w', n) {
      assert Accounted(w, n);
      if n in w.pending { assert n in w.pending + [w.main.lease]; }
    }
  }

  lemma NoneDroppedJoin(w: World)
    requires Inv(w) && Enabled(w, JoinNext)
    ensures NoneDropped(Next(w, JoinNext))
  {
    var w' := Next(w, JoinNext);
    assert w.pending == [w.pending[0]] + w'.pending;
    forall n | 0 <= n < |w'.leases| ensures Accounted(w', n) {
      assert Accounted(w, n);
    }
  }

  lemma FreshAloneStep(w: World, l: Label)
    requires Inv(w) && Enabled(w, l)
    ensures FreshAlone(Next(w, l))
  {}

  lemma InvStep(w: World, l: Label)
    requires Inv(w) && Enabled(w, l)
    ensures Inv(Next(w, l))
  {
    LocksAgreeStep(w, l);
    StagesSoundStep(w, l);
    NoneDroppedStep(w, l);
    FreshAloneStep(w, l);
  }

  /** The worlds a sequence of steps passes through. */
  ghost predicate IsRun(ls: seq<Label>, ws: seq<World>) {
    && |ws| == |ls| + 1 && IsStart(ws[0])
    && forall n :: 0 <= n < |ls| ==> Enabled(ws[n], ls[n]) && ws[n + 1] == Next(ws[n], ls[n])
  }

  lemma {:induction false} RunInv(ls: seq<Label>, ws: seq<World>, n: nat)
    requires IsRun(ls, ws) && n <= |ls|
    ensures Inv(ws[n])
    decreases n
  {
    if n > 0 {
      RunInv(ls, ws, n - 1);
      InvStep(ws[n - 1], ls[n - 1]);
    }
  }

  // ----- over every run -----

  /** No two leases ever hold one session's lock, a locked lease whose tasks or children
      still write is the one the lock table names, and where two leases of a session
      write, one was never locked and is being released: neither current nor built last. */
  lemma SingleWriter(ls: seq<Label>, ws: seq<World>, n: nat, a: nat, b: nat)
    requires IsRun(ls, ws) && n <= |ls| && a < |ws[n].leases| && b < |ws[n].leases|
    ensures var w := ws[n];
      && (w.leases[a].locked && w.leases[a].Writing() ==>
        w.leases[a].sid in w.locks && w.locks[w.leases[a].sid] == Held(a))
      && (w.leases[a].HoldsLock() && w.leases[b].HoldsLock() && w.leases[a].sid == w.leases[b].sid ==> a == b)
      && (a != b && w.leases[a].sid == w.leases[b].sid && w.leases[a].Writing() && w.leases[b].Writing() ==>
        OnlyReleasing(w, a) || OnlyReleasing(w, b))
  {
    RunInv(ls, ws, n);
    var w := ws[n];
    assert Accounted(w, a) && Accounted(w, b);
  }

  /** A lease that never got its lock and waits in pending. */
  predicate OnlyReleasing(w: World, a: nat)
    requires a < |w.leases|
  {
    !w.leases[a].locked && a in w.pending && w.current != Some(a) && w.main != Built(a)
  }

  /** A lease gives its lock up only when its host's tasks and its children have ended. */
  lemma LockOutlivesWriters(ls: seq<Label>, ws: seq<World>, n: nat, sid: nat, a: nat)
    requires IsRun(ls, ws) && n < |ls| && sid in ws[n].locks && ws[n].locks[sid] == Held(a)
    requires !(sid in ws[n + 1].locks && ws[n + 1].locks[sid] == Held(a))
    ensures a < |ws[n].leases| && ls[n] == ChildrenJoined(a)
    ensures !ws[n].leases[a].Writing() && ws[n + 1].leases[a].stage == Finished
  {
    RunInv(ls, ws, n);
    assert ws[n + 1] == Next(ws[n], ls[n]);
  }

  /** Admitting an existing session meets no host of it that is not finished, unless that
      host never got its lock and is being released. */
  lemma AdmissionMeetsOnlyUnlocked(ls: seq<Label>, ws: seq<World>, n: nat, a: nat)
    requires IsRun(ls, ws) && n < |ls| && ls[n].Admit? && a < |ws[n].leases| && ws[n].leases[a].sid == ls[n].sid
    ensures ws[n].leases[a].locked ==> ws[n].leases[a].stage == Finished && !ws[n].leases[a].Writing()
    ensures ws[n].leases[a].stage != Finished ==> !ws[n].leases[a].locked && a in ws[n].pending
  {
    RunInv(ls, ws, n);
    assert Enabled(ws[n], ls[n]) && Accounted(ws[n], a);
  }

  /** That case is real, to begin with in one run: a fresh host whose lock failed is still draining when its
      session is resumed, and both hosts write. */
  lemma UnlockedHostOverlaps() returns (ls: seq<Label>, ws: seq<World>)
    ensures IsRun(ls, ws)
    ensures var w := ws[|ls|];
      && |w.leases| == 2 && w.leases[0].sid == w.leases[1].sid && w.leases[0].Writing() && w.leases[1].Writing()
      && w.current == Some(1) && w.pending == [0]
  {
    var w0 := World(map[], [], None, [], {}, Idle);
    ls := [BuildFresh(7, 1, 0), LockFreshFails, Admit(7), Build(1, 0), Install];
    var w1 := Next(w0, ls[0]);
    var w2 := Next(w1, ls[1]);
    var w3 := Next(w2, ls[2]);
    var w4 := Next(w3, ls[3]);
    var w5 := Next(w4, ls[4]);
    ws := [w0, w1, w2, w3, w4, w5];
  }

  /** When exit completes, every lease ever built has ended its tasks and children and
      this process holds no lock. */
  lemma ExitDrainsAll(ls: seq<Label>, ws: seq<World>, n: nat)
    requires IsRun(ls, ws) && n <= |ls| && ws[n].main == Exited
    ensures forall a :: 0 <= a < |ws[n].leases| ==> ws[n].leases[a].stage == Finished && !ws[n].leases[a].Writing()
    ensures forall sid <- ws[n].locks :: ws[n].locks[sid] == Foreign
  {
    RunInv(ls, ws, n);
    var w := ws[n];
    forall a | 0 <= a < |w.leases| ensures w.leases[a].stage == Finished {
      assert Accounted(w, a);
    }
  }

  // ----- what each step may change -----

  function OwnerOf(w: World, sid: nat): Option<Owner> {
    if sid in w.locks then Some(w.locks[sid]) else None
  }

  /** The changes of a session's lock, each by its one step: admission takes it and gives
      it back if the build fails, a build or a fresh lock hands it to a lease, that lease
      drops it when its children are joined, and other processes take and free it. */
  ghost predicate LockChange(w: World, l: Label, sid: nat, before: Option<Owner>, after: Option<Owner>) {
    || (before == None && after == Some(Admission) && l == Admit(sid))
    || (before == Some(Admission) && after == None && l == BuildFails)
    || (before == Some(Admission) && after == Some(Held(|w.leases|)) && l.Build?)
    || (before == None && l == LockFresh && w.main.Built? && after == Some(Held(w.main.lease)))
    || (before.Some? && before.value.Held? && after == None && l == ChildrenJoined(before.value.lease))
    || (before == None && after == Some(Foreign) && l == ForeignAcquires(sid))
    || (before == Some(Foreign) && after == None && l == ForeignReleases(sid))
  }

  /** The steps that change a session's lock do. */
  ghost predicate LockFollows(w: World, l: Label, sid: nat, after: Option<Owner>) {
    && (l == Admit(sid) ==> after == Some(Admission))
    && (l == BuildFails && w.main == Admitted(sid) ==> after == None)
    && (l.Build? && w.main == Admitted(sid) ==> after == Some(Held(|w.leases|)))
    && (l == LockFresh && w.main.Built? && w.main.lease < |w.leases| && w.leases[w.main.lease].sid == sid ==>
      after == Some(Held(w.main.lease)))
    && (l.ChildrenJoined? && l.lease < |w.leases| && w.leases[l.lease].locked && w.leases[l.lease].sid == sid ==>
      after == None)
    && (l == ForeignAcquires(sid) ==> after == Some(Foreign))
    && (l == ForeignReleases(sid) ==> after == None)
  }

  /** Over every run a session's lock changes in these steps and in no other. */
  lemma LockChanges(ls: seq<Label>, ws: seq<World>, n: nat, sid: nat)
    requires IsRun(ls, ws) && n < |ls|
    ensures var before, after := OwnerOf(ws[n], sid), OwnerOf(ws[n + 1], sid);
      LockFollows(ws[n], ls[n], sid, after) && (before == after || LockChange(ws[n], ls[n], sid, before, after))
  {
    RunInv(ls, ws, n);
    LockChangeStep(ws[n], ls[n], sid);
  }

  lemma LockChangeStep(w: World, l: Label, sid: nat)
    requires Inv(w) && Enabled(w, l)
    ensures var before, after := OwnerOf(w, sid), OwnerOf(Next(w, l), sid);
      LockFollows(w, l, sid, after) && (before == after || LockChange(w, l, sid, before, after))
  {
    if l.ChildrenJoined? && w.leases[l.lease].locked { assert w.leases[l.lease].HoldsLock(); }
  }

  /** A lock becomes another process's only when that process takes it. */
  lemma ForeignOnlyTakes(ls: seq<Label>, ws: seq<World>, n: nat, sid: nat)
    requires IsRun(ls, ws) && n < |ls|
    requires OwnerOf(ws[n + 1], sid) == Some(Foreign) && OwnerOf(ws[n], sid) != Some(Foreign)
    ensures ls[n] == ForeignAcquires(sid)
  {
    LockChanges(ls, ws, n, sid);
  }

  /** An admission whose build fails leaves everything as it was. */
  lemma FailedBuildUndoes(w: World, sid: nat)
    requires Enabled(w, Admit(sid))
    ensures Enabled(Next(w, Admit(sid)), BuildFails) && Next(Next(w, Admit(sid)), BuildFails) == w
  {
    assert w.locks[sid := Admission] - {sid} == w.locks;
  }

  /** The changes of a lease, each by its one step. */
  ghost predicate LeaseChange(w: World, l: Label, n: nat, before: Lease, after: Lease) {
    || (l == TaskEnds(n) && before.tasks > 0 && after == before.(tasks := before.tasks - 1))
    || (l == ChildEnds(n) && before.children > 0 && after == before.(children := before.children - 1))
    || (l == ChildStarts(n) && after == before.(children := before.children + 1))
    || (l == LockFresh && w.main == Built(n) && after == before.(locked := true))
    || ((l == Install || l == BeginExit) && w.current == Some(n) && before.stage == Live
        && after == before.(stage := Draining))
    || (l == LockFreshFails && w.main == Built(n) && before.stage == Live && after == before.(stage := Draining))
    || (l == HostDown(n) && before.stage == Draining && before.tasks == 0 && after == before.(stage := JoiningChildren))
    || (l == ChildrenJoined(n) && before.stage == JoiningChildren && before.children == 0
        && after == before.(stage := Finished))
  }

  /** The steps that change a lease do. */
  ghost predicate LeaseFollows(w: World, l: Label, n: nat, before: Lease, after: Lease) {
    && (l == TaskEnds(n) ==> after.tasks == before.tasks - 1)
    && (l == ChildEnds(n) ==> after.children == before.children - 1)
    && (l == ChildStarts(n) ==> after.children == before.children + 1)
    && (l == LockFresh && w.main == Built(n) ==> after.locked)
    && ((l == Install || l == BeginExit) && w.current == Some(n) ==> after.stage == Draining)
    && (l == LockFreshFails && w.main == Built(n) ==> after.stage == Draining)
    && (l == HostDown(n) ==> after.stage == JoiningChildren)
    && (l == ChildrenJoined(n) ==> after.stage == Finished)
  }

  /** Over every run a lease changes in these steps and in no other, and none disappears. */
  lemma LeaseChanges(ls: seq<Label>, ws: seq<World>, n: nat, a: nat)
    requires IsRun(ls, ws) && n < |ls| && a < |ws[n].leases|
    ensures a < |ws[n + 1].leases|
    ensures LeaseFollows(ws[n], ls[n], a, ws[n].leases[a], ws[n + 1].leases[a])
    ensures ws[n + 1].leases[a] == ws[n].leases[a] || LeaseChange(ws[n], ls[n], a, ws[n].leases[a], ws[n + 1].leases[a])
  {
    RunInv(ls, ws, n);
    LeaseChangeStep(ws[n], ls[n], a);
  }

  lemma LeaseChangeStep(w: World, l: Label, a: nat)
    requires Inv(w) && Enabled(w, l) && a < |w.leases|
    ensures a < |Next(w, l).leases|
    ensures LeaseFollows(w, l, a, w.leases[a], Next(w, l).leases[a])
    ensures Next(w, l).leases[a] == w.leases[a] || LeaseChange(w, l, a, w.leases[a], Next(w, l).leases[a])
  {}

  /** A build, and nothing else, makes a lease: live, of its session, with its writers, and
      locked exactly when its session was admitted first. */
  lemma NewLeases(ls: seq<Label>, ws: seq<World>, n: nat)
    requires IsRun(ls, ws) && n < |ls|
    ensures match ls[n]
      case Build(tasks, children) => ws[n].main.Admitted?
        && ws[n + 1].leases == ws[n].leases + [Lease(ws[n].main.sid, true, tasks, children, Live)]
      case BuildFresh(sid, tasks, children) =>
        ws[n + 1].leases == ws[n].leases + [Lease(sid, false, tasks, children, Live)]
      case _ => |ws[n + 1].leases| == |ws[n].leases|
  {
    RunInv(ls, ws, n);
    assert Enabled(ws[n], ls[n]) && ws[n + 1] == Next(ws[n], ls[n]);
  }
}
