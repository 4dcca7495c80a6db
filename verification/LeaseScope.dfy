/** The lease scope as the main thread drives it: switches, installs and exit, with the
    host tasks, children, release tasks and other processes acting in between. Every
    execution is a run of the lease machine. */
module LeaseScope {
  import opened Options
  import opened Leases
  import opened LeaseOverlap

  /** A step of someone other than the main thread. */
  predicate IsOutside(l: Label) {
    l.TaskEnds? || l.ChildEnds? || l.ChildStarts? || l.HostDown? || l.ChildrenJoined?
    || l.ForeignAcquires? || l.ForeignReleases?
  }

  /** The main thread's own steps, in order. */
  function MainSteps(ls: seq<Label>): seq<Label> {
    if ls == [] then []
    else
      var l := ls[|ls| - 1];
      MainSteps(ls[..|ls| - 1]) + if IsOutside(l) then [] else [l]
  }

  function Progress(stage: Stage): nat {
    match stage case Live => 0 case Draining => 1 case JoiningChildren => 2 case Finished => 3
  }

  /** None of these leases gains a lock; one loses its lock only by finishing; a finished
      one stays as it is, and releases only go forward. There may be new leases. */
  ghost predicate Drifted(locks: map<nat, Owner>, leases: seq<Lease>, locks': map<nat, Owner>, leases': seq<Lease>) {
    && |leases| <= |leases'|
    && (forall n :: 0 <= n < |leases| ==>
      && leases'[n].sid == leases[n].sid && leases'[n].locked == leases[n].locked
      && Progress(leases[n].stage) <= Progress(leases'[n].stage)
      && (leases[n].stage == Finished ==> leases'[n] == leases[n]))
    && (forall sid, n :: 0 <= n < |leases| && sid in locks' && locks'[sid] == Held(n) ==>
      sid in locks && locks[sid] == Held(n))
    && (forall sid, n :: 0 <= n < |leases| && sid in locks && locks[sid] == Held(n) ==>
      (sid in locks' && locks'[sid] == Held(n)) || leases'[n].stage == Finished)
  }

  lemma DriftedOn(locks: map<nat, Owner>, leases: seq<Lease>, locks1: map<nat, Owner>, leases1: seq<Lease>,
                  locks2: map<nat, Owner>, leases2: seq<Lease>)
    requires Drifted(locks, leases, locks1, leases1) && Drifted(locks1, leases1, locks2, leases2)
    ensures Drifted(locks, leases, locks2, leases2)
  {}

  lemma DriftedRelease(locks: map<nat, Owner>, leases: seq<Lease>, n: nat)
    requires n < |leases| && leases[n].stage == Live
    ensures Drifted(locks, leases, locks, leases[n := leases[n].BeginRelease()])
  {}

  lemma DriftedPrefix(locks: map<nat, Owner>, leases: seq<Lease>, locks1: map<nat, Owner>, leases1: seq<Lease>, k: nat)
    requires Drifted(locks, leases, locks1, leases1) && |leases| <= k <= |leases1|
    ensures Drifted(locks, leases, locks1, leases1[..k])
  {}

  lemma DriftedAdmission(locks: map<nat, Owner>, leases: seq<Lease>, locks1: map<nat, Owner>,
                         leases1: seq<Lease>, sid: nat)
    requires Drifted(locks, leases, locks1, leases1) && sid !in locks1
    ensures Drifted(locks, leases, locks1[sid := Admission], leases1)
  {}

  /** The same leases are live. */
  predicate SameLive(leases: seq<Lease>, leases': seq<Lease>) {
    |leases'| == |leases| && forall n :: 0 <= n < |leases| ==> (leases'[n].stage == Live <==> leases[n].stage == Live)
  }

  lemma OutsideDrifts(w: World, l: Label)
    requires Inv(w) && Enabled(w, l) && IsOutside(l)
    ensures var w' := Next(w, l);
      && Drifted(w.locks, w.leases, w'.locks, w'.leases) && SameLive(w.leases, w'.leases)
      && w' == w.(locks := w'.locks, leases := w'.leases)
  {
    if l.ChildrenJoined? {
      FinishDrifts(w, l.lease);
    }
  }

  lemma FinishDrifts(w: World, n: nat)
    requires Inv(w) && Enabled(w, ChildrenJoined(n))
    ensures var w' := Next(w, ChildrenJoined(n)); Drifted(w.locks, w.leases, w'.locks, w'.leases)
  {}

  /** Whether it can be taken, and what it does, depends on locks and leases alone. */
  lemma OutsideSeesLeases(w: World, v: World, l: Label)
    requires IsOutside(l) && v.locks == w.locks && v.leases == w.leases
    ensures Enabled(v, l) <==> Enabled(w, l)
    ensures Enabled(w, l) ==> Next(v, l).locks == Next(w, l).locks && Next(v, l).leases == Next(w, l).leases
  {}

  datatype Target = Fork | Existing(sid: nat) | Invalid

  /** What the rest of the system answers during a switch: whether the session is live in
      a detached process, whether taking the lock fails on its own, whether the build
      fails, and the tasks and children a build starts. */
  datatype Answers = Answers(live: bool, lockFails: bool, buildFails: bool, tasks: nat, children: nat)

  /** How a switch ends; InUse says that someone holds the session's lock. */
  datatype Outcome = Ready | InvalidTarget | AlreadyOn | LiveElsewhere | InUse | LockError | BuildError

  function LockVerdict(answers: Answers, inUse: bool): Outcome {
    if answers.lockFails then LockError else if inUse then InUse else Ready
  }

  /** A fork builds before it locks; an existing session is checked and locked first. */
  function Verdict(target: Target, isCurrent: bool, answers: Answers, inUse: bool): Outcome {
    match target
    case Invalid => InvalidTarget
    case Fork => if answers.buildFails then BuildError else LockVerdict(answers, inUse)
    case Existing(_) =>
      if isCurrent then AlreadyOn
      else if answers.live then LiveElsewhere
      else if LockVerdict(answers, inUse) != Ready then LockVerdict(answers, inUse)
      else if answers.buildFails then BuildError
      else Ready
  }

  /** The main thread's steps of a switch that ends so. */
  predicate SwitchSteps(target: Target, outcome: Outcome, steps: seq<Label>) {
    if outcome == Ready then
      |steps| == 3 && steps[2] == Install &&
      match target
      case Invalid => false
      case Fork => steps[0].BuildFresh? && steps[1] == LockFresh
      case Existing(sid) => steps[0] == Admit(sid) && steps[1].Build?
    else if Tracks(target, outcome) then |steps| == 2 && steps[0].BuildFresh? && steps[1] == LockFreshFails
    else if target.Existing? && outcome == BuildError then steps == [Admit(target.sid), BuildFails]
    else steps == []
  }

  /** Someone held the session's lock at some point since the run had n0 steps. */
  ghost predicate LockedSince(ws: seq<World>, n0: int, sid: nat) {
    exists n :: 0 <= n < |ws| && n0 <= n && sid in ws[n].locks
  }

  /** The session's lock was free at some point since the run had n0 steps. */
  ghost predicate FreeSince(ws: seq<World>, n0: int, sid: nat) {
    exists n :: 0 <= n < |ws| && n0 <= n && sid !in ws[n].locks
  }

  lemma FreeStays(ws: seq<World>, n: int, ws': seq<World>, n0: int, sid: nat)
    requires FreeSince(ws, n, sid) && ws <= ws' && n0 <= n
    ensures FreeSince(ws', n0, sid)
  {
    var k :| 0 <= k < |ws| && n <= k && sid !in ws[k].locks;
    assert ws'[k] == ws[k];
  }

  /** The current lease, if there is one, is this session's. */
  predicate IsSidOf(current: Option<nat>, leases: seq<Lease>, target: Target) {
    target.Existing? && current.Some? && current.value < |leases| && leases[current.value].sid == target.sid
  }

  /** Each refusal, over the target, the current session and the answers: an existing
      session is compared, checked for life elsewhere, locked and built, in that order; a
      fork is built and then locked. */
  predicate Says(target: Target, isCurrent: bool, answers: Answers, outcome: Outcome) {
    var tries := target.Existing? && !isCurrent && !answers.live;
    && (outcome == InvalidTarget <==> target.Invalid?)
    && (outcome == AlreadyOn <==> target.Existing? && isCurrent)
    && (outcome == LiveElsewhere <==> target.Existing? && !isCurrent && answers.live)
    && (outcome == LockError <==> answers.lockFails && (tries || (target.Fork? && !answers.buildFails)))
    && (outcome == BuildError <==>
      answers.buildFails && (target.Fork? || (tries && !answers.lockFails && outcome != InUse)))
    && (outcome == InUse ==> !answers.lockFails && (tries || (target.Fork? && !answers.buildFails)))
    && (outcome == Ready <==>
      !answers.lockFails && !answers.buildFails && (tries || target.Fork?) && outcome != InUse)
  }

  lemma VerdictSays(target: Target, isCurrent: bool, answers: Answers, inUse: bool)
    requires isCurrent ==> target.Existing?
    ensures Says(target, isCurrent, answers, Verdict(target, isCurrent, answers, inUse))
  {}

  /** A fork whose host was built before its lock was refused. */
  predicate Tracks(target: Target, outcome: Outcome) {
    target.Fork? && (outcome == InUse || outcome == LockError)
  }

  lemma FreshExists(w: World)
    ensures exists sid: nat :: IsFresh(w, sid)
  {
    var sids := set l | l in w.leases :: l.sid;
    var sid := Unused(w.locks.Keys + sids);
    assert forall n :: 0 <= n < |w.leases| ==> w.leases[n].sid in sids;
    assert IsFresh(w, sid);
  }

  class HostLeaseScope {
    var locks: map<nat, Owner>
    var leases: seq<Lease>
    var current: Option<nat>
    var pending: seq<nat>
    ghost var joined: set<nat>
    ghost var labels: seq<Label>
    ghost var worlds: seq<World>

    /** The machine's state, the main thread being here and joining these releases. */
    ghost function Now(main: Main, joining: seq<nat>): World
      reads this
    {
      World(locks, leases, current, joining + pending, joined, main)
    }

    /** The steps so far are a run of the machine that ends in this state. */
    ghost predicate Traced(main: Main, joining: seq<nat>)
      reads this
    {
      IsRun(labels, worlds) && worlds[|labels|] == Now(main, joining)
    }

    lemma Sound(main: Main, joining: seq<nat>)
      requires Traced(main, joining)
      ensures Inv(Now(main, joining))
    {
      RunInv(labels, worlds, |labels|);
    }

    constructor (locks: map<nat, Owner>)
      requires forall sid <- locks :: locks[sid] == Foreign
      ensures Traced(Idle, []) && this.locks == locks && leases == [] && current == None && pending == []
    {
      this.locks := locks;
      leases, current, pending := [], None, [];
      joined, labels := {}, [];
      worlds := [World(locks, [], None, [], {}, Idle)];
    }

    /** Record one step; the caller then brings the fields to the state after it. */
    ghost method Take(l: Label, main: Main, joining: seq<nat>)
      requires Traced(main, joining) && Enabled(Now(main, joining), l)
      modifies this`labels, this`worlds
      ensures IsRun(labels, worlds) && worlds[|labels|] == Next(Now(main, joining), l) && old(worlds) <= worlds
      ensures MainSteps(labels) == MainSteps(old(labels)) + if IsOutside(l) then [] else [l]
    {
      var w := Next(worlds[|labels|], l);
      labels := labels + [l];
      worlds := worlds + [w];
      assert labels[..|labels| - 1] == old(labels);
    }

    /** One step of someone else, if the one picked can be taken now. */
    method Outside(ghost main: Main, ghost joining: seq<nat>)
      requires Traced(main, joining)
      modifies this`locks, this`leases, this`labels, this`worlds
      ensures Traced(main, joining) && MainSteps(labels) == MainSteps(old(labels)) && old(worlds) <= worlds
      ensures Drifted(old(locks), old(leases), locks, leases) && SameLive(old(leases), leases)
    {
      var l: Label := *;
      var seen := World(locks, leases, None, [], {}, Idle);
      if IsOutside(l) && Enabled(seen, l) {
        Sound(main, joining);
        OutsideSeesLeases(Now(main, joining), seen, l);
        OutsideDrifts(Now(main, joining), l);
        Take(l, main, joining);
        var next := Next(seen, l);
        locks, leases := next.locks, next.leases;
      }
    }

    /** Any number of such steps. */
    method Interfere(ghost main: Main, ghost joining: seq<nat>)
      requires Traced(main, joining)
      modifies this`locks, this`leases, this`labels, this`worlds
      ensures Traced(main, joining) && MainSteps(labels) == MainSteps(old(labels)) && old(worlds) <= worlds
      ensures Drifted(old(locks), old(leases), locks, leases) && SameLive(old(leases), leases)
    {
      var steps: int := *;
      while steps > 0
        invariant Traced(main, joining) && MainSteps(labels) == MainSteps(old(labels)) && old(worlds) <= worlds
        invariant Drifted(old(locks), old(leases), locks, leases) && SameLive(old(leases), leases)
      {
        ghost var locks0, leases0 := locks, leases;
        Outside(main, joining);
        DriftedOn(old(locks), old(leases), locks0, leases0, locks, leases);
        steps := steps - 1;
      }
    }

    // ----- switching -----

    /** Release the current lease into a tracked task and store the one just built. */
    method Install(lease: nat)
      requires Traced(Built(lease), []) && lease < |leases| && leases[lease].locked
      modifies this`leases, this`current, this`pending, this`labels, this`worlds
      ensures Traced(Idle, []) && MainSteps(labels) == MainSteps(old(labels)) + [Label.Install]
      ensures old(worlds) <= worlds
      ensures current == Some(lease) && lease < |leases| && leases[lease] == old(leases)[lease]
      ensures match old(current)
        case None => pending == old(pending) && leases == old(leases)
        case Some(n) =>
          && n < |old(leases)| && pending == old(pending) + [n]
          && leases == old(leases)[n := old(leases)[n].BeginRelease()]
      ensures old(current).Some? ==> Drifted(locks, old(leases), locks, leases)
    {
      assert [] + pending == pending;
      InstallFacts(lease);
      Take(Label.Install, Built(lease), []);
      if current.Some? {
        DriftedRelease(locks, leases, current.value);
        leases := leases[current.value := leases[current.value].BeginRelease()];
        pending := pending + [current.value];
      }
      current := Some(lease);
      assert [] + pending == pending;
    }

    lemma InstallFacts(lease: nat)
      requires Traced(Built(lease), []) && lease < |leases| && leases[lease].locked
      ensures Enabled(Now(Built(lease), []), Label.Install)
      ensures current.Some? ==>
        current.value < |leases| && current.value != lease && leases[current.value].stage == Live
    {
      Sound(Built(lease), []);
    }

    /** Track the release of the host just built, whose lock failed. */
    method TrackRelease(lease: nat)
      requires Traced(Built(lease), []) && lease < |leases| && !leases[lease].locked
      modifies this`leases, this`pending, this`labels, this`worlds
      ensures Traced(Idle, []) && MainSteps(labels) == MainSteps(old(labels)) + [LockFreshFails]
      ensures old(worlds) <= worlds
      ensures pending == old(pending) + [lease]
      ensures leases == old(leases)[lease := old(leases)[lease].BeginRelease()]
    {
      Take(LockFreshFails, Built(lease), []);
      leases := leases[lease := leases[lease].BeginRelease()];
      pending := pending + [lease];
      assert [] + pending == pending && [] + old(pending) == old(pending);
    }

    /** A new lease is built, live, and holds its session's lock. */
    ghost predicate BuiltLast(leases0: seq<Lease>)
      reads this
    {
      && |leases| == |leases0| + 1 && Traced(Built(|leases0|), [])
      && leases[|leases0|].locked && leases[|leases0|].stage == Live
    }

    /** The leases are the ones there were. */
    ghost predicate Left(leases0: seq<Lease>, pending0: seq<nat>)
      reads this
    {
      Traced(Idle, []) && pending == pending0 && |leases| == |leases0|
    }

    /** pending gained the release of a new host that never got its lock. */
    ghost predicate TracksFailed(leases0: seq<Lease>, pending0: seq<nat>)
      reads this
    {
      && Traced(Idle, []) && pending == pending0 + [|leases0|] && |leases| == |leases0| + 1
      && !leases[|leases0|].locked && leases[|leases0|].stage == Draining
    }

    /** Build the host of a fresh session; it has no lock yet. */
    method BuildFresh(answers: Answers) returns (ghost step: Label)
      requires Traced(Idle, [])
      modifies this`locks, this`leases, this`labels, this`worlds
      ensures Drifted(old(locks), old(leases), locks, leases) && old(worlds) <= worlds
      ensures |leases| == |old(leases)| + 1 && !leases[|old(leases)|].locked && Traced(Built(|old(leases)|), [])
      ensures step.BuildFresh? && MainSteps(labels) == MainSteps(old(labels)) + [step]
    {
      Interfere(Idle, []);
      var now := World(locks, leases, None, [], {}, Idle);
      FreshExists(now);
      var sid: nat :| IsFresh(now, sid);
      ghost var locks1, leases1 := locks, leases;
      step := AddUnlocked(sid, answers.tasks, answers.children);
      DriftedOn(old(locks), old(leases), locks1, leases1, locks, leases);
    }

    method AddUnlocked(sid: nat, tasks: nat, children: nat) returns (ghost step: Label)
      requires Traced(Idle, []) && IsFresh(World(locks, leases, None, [], {}, Idle), sid)
      modifies this`leases, this`labels, this`worlds
      ensures Drifted(locks, old(leases), locks, leases) && old(worlds) <= worlds
      ensures leases == old(leases) + [Lease(sid, false, tasks, children, Live)] && Traced(Built(|old(leases)|), [])
      ensures step.BuildFresh? && MainSteps(labels) == MainSteps(old(labels)) + [step]
    {
      step := Label.BuildFresh(sid, tasks, children);
      Take(step, Idle, []);
      leases := leases + [Lease(sid, false, tasks, children, Live)];
    }

    /** Lock the host just built, or track its release. */
    method LockFresh(id: nat, answers: Answers) returns (outcome: Outcome)
      requires Traced(Built(id), []) && id + 1 == |leases| && !leases[id].locked
      modifies this`locks, this`leases, this`pending, this`labels, this`worlds
      ensures Drifted(old(locks), old(leases)[..id], locks, leases)
      ensures MainSteps(labels) ==
        MainSteps(old(labels)) + [if outcome == Ready then Label.LockFresh else LockFreshFails]
      ensures outcome == LockVerdict(answers, outcome == InUse)
      ensures outcome == Ready ==> BuiltLast(old(leases)[..id]) && pending == old(pending)
      ensures outcome != Ready ==> TracksFailed(old(leases)[..id], old(pending))
      ensures outcome == InUse ==> LockedSince(worlds, |old(worlds)| - 1, leases[id].sid)
      ensures outcome == Ready ==> FreeSince(worlds, |old(worlds)| - 1, leases[id].sid)
    {
      outcome := LockVerdict(answers, leases[id].sid in locks);
      if outcome != Ready {
        assert outcome == InUse ==> leases[id].sid in worlds[|labels|].locks;
        TrackRelease(id);
        return;
      }
      assert leases[id].sid !in worlds[|labels|].locks;
      LockBuilt(id);
    }

    method LockBuilt(id: nat)
      requires Traced(Built(id), []) && id + 1 == |leases| && !leases[id].locked && leases[id].sid !in locks
      modifies this`locks, this`leases, this`labels, this`worlds
      ensures Drifted(old(locks), old(leases)[..id], locks, leases) && BuiltLast(old(leases)[..id])
      ensures old(worlds) <= worlds && leases[id].sid == old(leases)[id].sid
      ensures MainSteps(labels) == MainSteps(old(labels)) + [Label.LockFresh]
    {
      Sound(Built(id), []);
      Take(Label.LockFresh, Built(id), []);
      locks := locks[leases[id].sid := Held(id)];
      leases := leases[id := leases[id].(locked := true)];
    }

    /** Fork into a fresh session: build its host, then lock it. */
    method BuildFork(answers: Answers) returns (outcome: Outcome, ghost steps: seq<Label>)
      requires Traced(Idle, [])
      modifies this`locks, this`leases, this`pending, this`labels, this`worlds
      ensures Drifted(old(locks), old(leases), locks, leases)
      ensures MainSteps(labels) == MainSteps(old(labels)) + steps
      ensures outcome == Verdict(Fork, false, answers, outcome == InUse)
      ensures outcome == Ready ==> BuiltLast(old(leases)) && pending == old(pending)
      ensures outcome == Ready ==> |steps| == 2 && steps[0].BuildFresh? && steps[1] == Label.LockFresh
      ensures outcome == BuildError ==> Left(old(leases), old(pending))
      ensures Tracks(Fork, outcome) ==> TracksFailed(old(leases), old(pending))
      ensures outcome != Ready ==> SwitchSteps(Fork, outcome, steps)
      ensures outcome == InUse ==> LockedSince(worlds, |old(worlds)| - 1, leases[|old(leases)|].sid)
      ensures outcome == Ready ==> FreeSince(worlds, |old(worlds)| - 1, leases[|old(leases)|].sid)
    {
      steps := [];
      if answers.buildFails { return BuildError, []; }
      ghost var step := BuildFresh(answers);
      var id := |leases| - 1;
      ghost var locks1, leases1 := locks, leases;
      Interfere(Built(id), []);
      DriftedOn(old(locks), old(leases), locks1, leases1, locks, leases);
      ghost var locks2, leases2 := locks, leases;
      DriftedPrefix(old(locks), old(leases), locks2, leases2, id);
      outcome := LockFresh(id, answers);
      DriftedOn(old(locks), old(leases), locks2, leases2[..id], locks, leases);
      steps := [step, if outcome == Ready then Label.LockFresh else LockFreshFails];
      assert |leases2[..id]| == |old(leases)|;
    }

    /** Admit an existing session: refused if it is live elsewhere or locked. */
    method Admit(sid: nat, answers: Answers) returns (outcome: Outcome)
      requires Traced(Idle, [])
      modifies this`locks, this`leases, this`labels, this`worlds
      ensures Drifted(old(locks), old(leases), locks, leases) && |leases| == |old(leases)|
      ensures Traced(if outcome == Ready then Admitted(sid) else Idle, [])
      ensures MainSteps(labels) == MainSteps(old(labels)) + if outcome == Ready then [Label.Admit(sid)] else []
      ensures outcome == if answers.live then LiveElsewhere else LockVerdict(answers, outcome == InUse)
      ensures outcome == InUse ==> LockedSince(worlds, |old(worlds)| - 1, sid)
      ensures outcome == Ready ==> FreeSince(worlds, |old(worlds)| - 1, sid)
    {
      Interfere(Idle, []);
      outcome := if answers.live then LiveElsewhere else LockVerdict(answers, sid in locks);
      assert outcome == InUse ==> sid in worlds[|labels|].locks;
      if outcome != Ready { return; }
      assert sid !in worlds[|labels|].locks;
      DriftedAdmission(old(locks), old(leases), locks, leases, sid);
      Take(Label.Admit(sid), Idle, []);
      locks := locks[sid := Admission];
    }

    /** Build the host of an admitted session; a failure drops the lock. */
    method BuildAdmitted(sid: nat, answers: Answers) returns (ghost step: Label)
      requires Traced(Admitted(sid), [])
      modifies this`locks, this`leases, this`labels, this`worlds
      ensures Drifted(old(locks), old(leases), locks, leases)
      ensures MainSteps(labels) == MainSteps(old(labels)) + [step] && old(worlds) <= worlds
      ensures answers.buildFails ==> Left(old(leases), pending) && step == BuildFails && sid !in locks
      ensures !answers.buildFails ==> BuiltLast(old(leases)) && leases[|old(leases)|].sid == sid && step.Build?
    {
      Interfere(Admitted(sid), []);
      ghost var locks1, leases1 := locks, leases;
      if answers.buildFails {
        DropAdmission(sid);
        step := BuildFails;
      } else {
        BuildLocked(sid, answers.tasks, answers.children);
        step := Build(answers.tasks, answers.children);
      }
      DriftedOn(old(locks), old(leases), locks1, leases1, locks, leases);
    }

    method DropAdmission(sid: nat)
      requires Traced(Admitted(sid), [])
      modifies this`locks, this`labels, this`worlds
      ensures Drifted(old(locks), leases, locks, leases) && Traced(Idle, []) && sid !in locks
      ensures MainSteps(labels) == MainSteps(old(labels)) + [BuildFails] && old(worlds) <= worlds
    {
      Sound(Admitted(sid), []);
      Take(BuildFails, Admitted(sid), []);
      locks := locks - {sid};
    }

    method BuildLocked(sid: nat, tasks: nat, children: nat)
      requires Traced(Admitted(sid), [])
      modifies this`locks, this`leases, this`labels, this`worlds
      ensures Drifted(old(locks), old(leases), locks, leases)
      ensures BuiltLast(old(leases)) && leases[|old(leases)|].sid == sid
      ensures MainSteps(labels) == MainSteps(old(labels)) + [Build(tasks, children)] && old(worlds) <= worlds
    {
      Sound(Admitted(sid), []);
      Take(Build(tasks, children), Admitted(sid), []);
      locks := locks[sid := Held(|leases|)];
      leases := leases + [Lease(sid, true, tasks, children, Live)];
    }

    /** Resume an existing session: admit it, holding its lock, and build its host. */
    method BuildExisting(sid: nat, answers: Answers) returns (outcome: Outcome, ghost steps: seq<Label>)
      requires Traced(Idle, [])
      modifies this`locks, this`leases, this`labels, this`worlds
      ensures Drifted(old(locks), old(leases), locks, leases)
      ensures MainSteps(labels) == MainSteps(old(labels)) + steps
      ensures outcome == Verdict(Existing(sid), false, answers, outcome == InUse)
      ensures outcome == Ready ==> BuiltLast(old(leases)) && leases[|old(leases)|].sid == sid
      ensures outcome == Ready ==> |steps| == 2 && steps[0] == Label.Admit(sid) && steps[1].Build?
      ensures outcome != Ready ==> Left(old(leases), pending) && SwitchSteps(Existing(sid), outcome, steps)
      ensures outcome == BuildError ==> sid !in locks
      ensures outcome == InUse ==> LockedSince(worlds, |old(worlds)| - 1, sid)
      ensures outcome == Ready || outcome == BuildError ==> FreeSince(worlds, |old(worlds)| - 1, sid)
    {
      steps := [];
      outcome := Admit(sid, answers);
      if outcome != Ready { return; }
      ghost var locks1, leases1 := locks, leases;
      ghost var ws := worlds;
      ghost var step := BuildAdmitted(sid, answers);
      FreeStays(ws, |old(worlds)| - 1, worlds, |old(worlds)| - 1, sid);
      DriftedOn(old(locks), old(leases), locks1, leases1, locks, leases);
      steps := [Label.Admit(sid), step];
      if answers.buildFails { outcome := BuildError; }
    }

    /** Switch to a target, whatever is answered and whoever acts in between. It takes
        exactly the steps its outcome names, and reports a lock in use only if someone
        held it meanwhile. One that fails leaves the current lease current and every
        lease and its lock to themselves, and adds at most the release of a host that
        never got its lock to pending. After one that succeeds the new lease is current
        and holds its session's lock while the old one is being released. */
    method SwitchTo(target: Target, answers: Answers) returns (outcome: Outcome, ghost steps: seq<Label>)
      requires Traced(Idle, [])
      modifies this`locks, this`leases, this`current, this`pending, this`labels, this`worlds
      ensures Traced(Idle, []) && Drifted(old(locks), old(leases), locks, leases)
      ensures outcome == Verdict(target, IsSidOf(old(current), old(leases), target), answers, outcome == InUse)
      ensures Says(target, IsSidOf(old(current), old(leases), target), answers, outcome)
      ensures outcome == BuildError && target.Existing? ==> target.sid !in locks
      ensures target.Existing? && (outcome == Ready || outcome == BuildError) ==>
        FreeSince(worlds, |old(worlds)| - 1, target.sid)
      ensures target.Fork? && outcome == Ready ==>
        |old(leases)| < |leases| && FreeSince(worlds, |old(worlds)| - 1, leases[|old(leases)|].sid)
      ensures MainSteps(labels) == MainSteps(old(labels)) + steps && SwitchSteps(target, outcome, steps)
      ensures outcome == InUse && target.Existing? ==> LockedSince(worlds, |old(worlds)| - 1, target.sid)
      ensures outcome == InUse && target.Fork? ==>
        |old(leases)| < |leases| && LockedSince(worlds, |old(worlds)| - 1, leases[|old(leases)|].sid)
      ensures outcome != Ready ==> current == old(current)
      ensures Tracks(target, outcome) ==> TracksFailed(old(leases), old(pending))
      ensures outcome != Ready && !Tracks(target, outcome) ==> Left(old(leases), old(pending))
      ensures outcome == Ready ==> Switched(old(leases), old(current), old(pending))
      ensures outcome == Ready && target.Existing? ==> leases[|old(leases)|].sid == target.sid
    {
      ghost var isCurrent := IsSidOf(current, leases, target);
      steps := [];
      match target {
        case Invalid => outcome := InvalidTarget;
        case Fork => outcome, steps := SwitchToFork(answers);
        case Existing(sid) =>
          if IsSidOf(current, leases, target) {
            outcome := AlreadyOn;
          } else {
            outcome, steps := SwitchToExisting(sid, answers);
          }
      }
      VerdictSays(target, isCurrent, answers, outcome == InUse);
    }

    /** The new lease is current and holds its session's lock; the old one is pending. */
    ghost predicate Switched(leases0: seq<Lease>, current0: Option<nat>, pending0: seq<nat>)
      reads this
    {
      && |leases| == |leases0| + 1 && current == Some(|leases0|)
      && leases[|leases0|].stage == Live
      && leases[|leases0|].sid in locks && locks[leases[|leases0|].sid] == Held(|leases0|)
      && pending == pending0 + if current0.Some? then [current0.value] else []
    }

    method SwitchToFork(answers: Answers) returns (outcome: Outcome, ghost steps: seq<Label>)
      requires Traced(Idle, [])
      modifies this`locks, this`leases, this`current, this`pending, this`labels, this`worlds
      ensures Traced(Idle, []) && Drifted(old(locks), old(leases), locks, leases)
      ensures outcome == Verdict(Fork, false, answers, outcome == InUse)
      ensures MainSteps(labels) == MainSteps(old(labels)) + steps && SwitchSteps(Fork, outcome, steps)
      ensures outcome == InUse ==>
        |old(leases)| < |leases| && LockedSince(worlds, |old(worlds)| - 1, leases[|old(leases)|].sid)
      ensures outcome != Ready ==> current == old(current)
      ensures outcome == BuildError ==> Left(old(leases), old(pending))
      ensures Tracks(Fork, outcome) ==> TracksFailed(old(leases), old(pending))
      ensures outcome == Ready ==> Switched(old(leases), old(current), old(pending))
      ensures outcome == Ready ==> FreeSince(worlds, |old(worlds)| - 1, leases[|old(leases)|].sid)
    {
      outcome, steps := BuildFork(answers);
      if outcome == Ready {
        ghost var ws, sid := worlds, leases[|leases| - 1].sid;
        FinishSwitch(old(locks), old(leases));
        FreeStays(ws, |old(worlds)| - 1, worlds, |old(worlds)| - 1, sid);
        steps := steps + [Label.Install];
      }
    }

    method SwitchToExisting(sid: nat, answers: Answers) returns (outcome: Outcome, ghost steps: seq<Label>)
      requires Traced(Idle, [])
      modifies this`locks, this`leases, this`current, this`pending, this`labels, this`worlds
      ensures Traced(Idle, []) && Drifted(old(locks), old(leases), locks, leases)
      ensures outcome == Verdict(Existing(sid), false, answers, outcome == InUse)
      ensures MainSteps(labels) == MainSteps(old(labels)) + steps && SwitchSteps(Existing(sid), outcome, steps)
      ensures outcome == InUse ==> LockedSince(worlds, |old(worlds)| - 1, sid)
      ensures outcome != Ready ==> current == old(current) && Left(old(leases), old(pending))
      ensures outcome == BuildError ==> sid !in locks
      ensures outcome == Ready ==> Switched(old(leases), old(current), old(pending))
      ensures outcome == Ready ==> leases[|old(leases)|].sid == sid
      ensures outcome == Ready || outcome == BuildError ==> FreeSince(worlds, |old(worlds)| - 1, sid)
    {
      outcome, steps := BuildExisting(sid, answers);
      if outcome == Ready {
        ghost var ws := worlds;
        FinishSwitch(old(locks), old(leases));
        FreeStays(ws, |old(worlds)| - 1, worlds, |old(worlds)| - 1, sid);
        steps := steps + [Label.Install];
      }
    }

    lemma CurrentHolds(id: nat)
      requires Traced(Idle, []) && current == Some(id)
      ensures id < |leases| && leases[id].stage == Live
      ensures leases[id].sid in locks && locks[leases[id].sid] == Held(id)
    {
      Sound(Idle, []);
    }

    /** Install the lease just built. */
    method FinishSwitch(ghost locks0: map<nat, Owner>, ghost leases0: seq<Lease>)
      requires BuiltLast(leases0) && Drifted(locks0, leases0, locks, leases)
      modifies this`locks, this`leases, this`current, this`pending, this`labels, this`worlds
      ensures Traced(Idle, []) && Drifted(locks0, leases0, locks, leases)
      ensures MainSteps(labels) == MainSteps(old(labels)) + [Label.Install] && old(worlds) <= worlds
      ensures Switched(leases0, old(current), old(pending)) && leases[|leases0|].sid == old(leases)[|leases0|].sid
    {
      var id := |leases| - 1;
      ghost var locks1, leases1 := locks, leases;
      Interfere(Built(id), []);
      DriftedOn(locks0, leases0, locks1, leases1, locks, leases);
      ghost var leases2 := leases;
      Install(id);
      if old(current).Some? { DriftedOn(locks0, leases0, locks, leases2, locks, leases); }
      CurrentHolds(id);
    }

    // ----- exit -----

    /** Wait for one release, as long as these steps of others last: its tasks and its
        children end and its lock drops by their own steps. */
    method Await(lease: nat, rest: seq<nat>, patience: nat) returns (joinedIt: bool)
      requires Traced(Exiting, [lease] + rest)
      modifies this`locks, this`leases, this`joined, this`labels, this`worlds
      ensures Traced(Exiting, if joinedIt then rest else [lease] + rest)
      ensures !joinedIt ==> lease < |leases| && leases[lease].stage != Finished
    {
      Awaited(lease, rest);
      var left := patience;
      while left > 0 && leases[lease].stage != Finished
        invariant Traced(Exiting, [lease] + rest) && lease < |leases|
      {
        Outside(Exiting, [lease] + rest);
        left := left - 1;
      }
      joinedIt := leases[lease].stage == Finished;
      if joinedIt { Join(lease, rest); }
    }

    lemma Awaited(lease: nat, rest: seq<nat>)
      requires Traced(Exiting, [lease] + rest)
      ensures lease < |leases|
    {
      Sound(Exiting, [lease] + rest);
      assert Now(Exiting, [lease] + rest).pending[0] == lease;
    }

    ghost method Join(lease: nat, rest: seq<nat>)
      requires Traced(Exiting, [lease] + rest) && lease < |leases| && leases[lease].stage == Finished
      modifies this`joined, this`labels, this`worlds
      ensures Traced(Exiting, rest)
    {
      assert Now(Exiting, [lease] + rest).pending == [lease] + (rest + pending);
      Take(JoinNext, Exiting, [lease] + rest);
      joined := joined + {lease};
    }

    /** Take the current lease and every release out of the scope; the current lease
        begins its release. */
    method TakeAll() returns (joining: seq<nat>)
      requires Traced(Idle, [])
      modifies this`leases, this`current, this`pending, this`labels, this`worlds
      ensures Traced(Exiting, joining) && current == None && pending == []
      ensures joining == old(pending) + if old(current).Some? then [old(current).value] else []
    {
      Sound(Idle, []);
      Take(BeginExit, Idle, []);
      joining := pending;
      if current.Some? {
        leases := leases[current.value := leases[current.value].BeginRelease()];
        joining := joining + [current.value];
      }
      current, pending := None, [];
      assert joining + [] == joining && [] + old(pending) == old(pending);
    }

    /** Exit: release the current lease and join every release in turn. When it returns
        done, every lease ever built has ended its tasks and children and only other
        processes hold locks; otherwise it still waits for the first of the rest. */
    method ReleaseAll(patience: nat) returns (done: bool, ghost waiting: seq<nat>)
      requires Traced(Idle, [])
      modifies this
      ensures current == None && pending == []
      ensures var all := old(pending) + if old(current).Some? then [old(current).value] else [];
        |waiting| <= |all| && waiting == all[|all| - |waiting|..]
      ensures if done then Traced(Exited, []) else waiting != [] && Traced(Exiting, waiting)
      ensures !done ==> waiting[0] < |leases| && leases[waiting[0]].stage != Finished
      ensures done ==> forall n :: 0 <= n < |leases| ==> leases[n].stage == Finished && !leases[n].Writing()
      ensures done ==> forall sid <- locks :: locks[sid] == Foreign
    {
      var joining := TakeAll();
      ghost var all := joining;
      while joining != []
        invariant |joining| <= |all| && joining == all[|all| - |joining|..]
        invariant Traced(Exiting, joining) && current == None && pending == []
        decreases |joining|
      {
        var ended := Await(joining[0], joining[1..], patience);
        assert joining == [joining[0]] + joining[1..];
        if !ended { return false, joining; }
        joining := joining[1..];
      }
      Leave();
      return true, [];
    }

    /** Nothing is left to join. */
    ghost method Leave()
      requires Traced(Exiting, []) && pending == []
      modifies this`labels, this`worlds
      ensures Traced(Exited, [])
      ensures forall n :: 0 <= n < |leases| ==> leases[n].stage == Finished && !leases[n].Writing()
      ensures forall sid <- locks :: locks[sid] == Foreign
    {
      Take(Exit, Exiting, []);
      ExitDrainsAll(labels, worlds, |labels|);
    }
  }
}
