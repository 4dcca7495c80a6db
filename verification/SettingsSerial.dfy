/** Settings writes with no unlocked edit: the file is the mutators replayed in the order
    the callers took the lock, each as often as its renames were tallied. */
module SettingsSerial {
  import opened Options
  import opened SettingsMerge
  import opened Sequences
  import opened SettingsStore
  import opened SettingsSolo

  predicate Within(order: seq<nat>, n: nat) {
    forall k :: 0 <= k < |order| ==> order[k] < n
  }

  predicate Distinct(order: seq<nat>) {
    forall m, n :: 0 <= m < n < |order| ==> order[m] != order[n]
  }

  ghost function Replay(jobs: seq<Job>, start: Value, order: seq<nat>): Value
    requires Within(order, |jobs|)
    decreases |order|
  {
    if order == [] then start
    else jobs[order[|order| - 1]].mutate(Replay(jobs, start, order[..|order| - 1]))
  }

  /** The lock holder is the one caller at work, and the last that took the lock. */
  ghost predicate Exclusive(jobs: seq<Job>, w: World) {
    && |w.pcs| == |jobs| && Within(w.queue, |jobs|) && Distinct(w.queue)
    && (forall i :: 0 <= i < |jobs| ==> (w.pcs[i].Active() <==> w.holder == Some(i)))
    && (forall i <- w.queue :: w.pcs[i] != Waiting)
    && (w.holder.Some? ==> w.queue != [] && w.queue[|w.queue| - 1] == w.holder.value)
  }

  /** While it works, the file holds the value the holder read or the text it wrote. */
  ghost predicate Knows(c: Codec, jobs: seq<Job>, w: World, i: nat)
    requires i < |w.pcs| == |jobs|
  {
    var pc := w.pcs[i];
    && (HoldsValue(pc) && !pc.Verifying? ==> ValueOf(c, w.file) == Some(pc.value))
    && (pc.Verifying? ==> w.file == Some(c.render(jobs[i].mutate(pc.value))))
  }

  /** The file is the mutators of the committed callers applied in commit order. */
  ghost predicate Replayed(c: Codec, jobs: seq<Job>, start: File, w: World)
    requires Within(w.commits, |jobs|)
  {
    if w.commits == [] then w.file == start
    else ValueOf(c, start).Some? && w.file == Some(c.render(Replay(jobs, ValueOf(c, start).value, w.commits)))
  }

  ghost predicate Serial(c: Codec, jobs: seq<Job>, start: File, w: World) {
    && Exclusive(jobs, w)
    && (forall i :: 0 <= i < |jobs| ==> Knows(c, jobs, w, i))
    && Within(w.commits, |jobs|) && Replayed(c, jobs, start, w)
  }

  lemma ExclusiveStep(c: Codec, jobs: seq<Job>, w: World, l: Label)
    requires Exclusive(jobs, w) && Enabled(jobs, w, l)
    ensures Exclusive(jobs, Next(c, jobs, w, l))
  {}

  lemma KnowsStep(c: Codec, jobs: seq<Job>, w: World, l: Label, j: nat)
    requires Exclusive(jobs, w) && Enabled(jobs, w, l) && !l.Edit?
    requires j < |jobs| && Knows(c, jobs, w, j)
    ensures Knows(c, jobs, Next(c, jobs, w, l), j)
  {}

  lemma ReplayedStep(c: Codec, jobs: seq<Job>, start: File, w: World, l: Label)
    requires RoundTrips(c) && Enabled(jobs, w, l) && !l.Edit? && Within(w.commits, |jobs|)
    requires l.Move? ==> Knows(c, jobs, w, l.i)
    requires Replayed(c, jobs, start, w)
    ensures var w' := Next(c, jobs, w, l); Within(w'.commits, |jobs|) && Replayed(c, jobs, start, w')
  {
    FileStep(c, jobs, w, l);
    if Renames(w, l) { ReplayedRename(c, jobs, start, w, l.i); }
  }

  predicate Renames(w: World, l: Label) {
    l.Move? && l.i < |w.pcs| && w.pcs[l.i].Renaming? && !l.failed
  }

  lemma FileStep(c: Codec, jobs: seq<Job>, w: World, l: Label)
    requires Enabled(jobs, w, l) && !l.Edit?
    ensures var w' := Next(c, jobs, w, l);
      if Renames(w, l)
      then w'.file == Some(c.render(jobs[l.i].mutate(w.pcs[l.i].value))) && w'.commits == w.commits + [l.i]
      else w'.file == w.file && w'.commits == w.commits
  {}

  lemma ReplayedRename(c: Codec, jobs: seq<Job>, start: File, w: World, i: nat)
    requires RoundTrips(c) && i < |w.pcs| == |jobs| && Within(w.commits, |jobs|) && Replayed(c, jobs, start, w)
    requires w.pcs[i].Renaming? && Knows(c, jobs, w, i)
    ensures var file, commits := Some(c.render(jobs[i].mutate(w.pcs[i].value))), w.commits + [i];
      Within(commits, |jobs|) && Replayed(c, jobs, start, w.(file := file, commits := commits))
  {
    assert (w.commits + [i])[..|w.commits|] == w.commits;
  }

  /** With no unlocked edit, whatever the interleaving and whichever operations fail, the
      file is at every point the renames so far replayed in order. */
  lemma {:induction false} SerialRun(c: Codec, jobs: seq<Job>, start: File, ls: seq<Label>, ws: seq<World>, n: nat)
    requires RoundTrips(c) && IsRun(c, jobs, start, ls, ws) && n <= |ls|
    requires forall k :: 0 <= k < |ls| ==> !ls[k].Edit?
    ensures Serial(c, jobs, start, ws[n])
    decreases n
  {
    if n > 0 {
      SerialRun(c, jobs, start, ls, ws, n - 1);
      var w, l := ws[n - 1], ls[n - 1];
      ExclusiveStep(c, jobs, w, l);
      forall j | 0 <= j < |jobs| ensures Knows(c, jobs, ws[n], j) { KnowsStep(c, jobs, w, l, j); }
      ReplayedStep(c, jobs, start, w, l);
    }
  }

  predicate Committed(pc: Pc) { pc.Verifying? || pc == Done(Ok) }

  /** A verify read that fails makes a caller whose rename stands run again. */
  predicate VerifyFails(w: World, l: Label) {
    l.Move? && l.failed && l.i < |w.pcs| && w.pcs[l.i].Verifying?
  }

  /** How many verify reads of this caller failed in the first n steps. */
  ghost function FailedVerifies(ls: seq<Label>, ws: seq<World>, i: nat, n: nat): nat
    requires n <= |ls| && n <= |ws|
  {
    if n == 0 then 0
    else FailedVerifies(ls, ws, i, n - 1) + if VerifyFails(ws[n - 1], ls[n - 1]) && ls[n - 1].i == i then 1 else 0
  }

  /** How often each caller has replaced the file: once for each verify read that
      failed, and once if its last rename stands. */
  ghost function Tally(jobs: seq<Job>, ls: seq<Label>, ws: seq<World>, n: nat): (t: seq<nat>)
    requires n <= |ls| && n < |ws| && |ws[n].pcs| == |jobs|
    ensures |t| == |jobs|
  {
    seq(|jobs|, i requires 0 <= i < |jobs| =>
      FailedVerifies(ls, ws, i, n) + if Committed(ws[n].pcs[i]) then 1 else 0)
  }

  function Times(i: nat, k: nat): seq<nat> { if k == 0 then [] else Times(i, k - 1) + [i] }

  /** The callers of a lock queue, each as often as it is tallied. */
  function Series(queue: seq<nat>, t: seq<nat>): seq<nat>
    requires Within(queue, |t|)
    decreases |queue|
  {
    if queue == [] then []
    else
      var i := queue[|queue| - 1];
      Series(queue[..|queue| - 1], t) + Times(i, t[i])
  }

  lemma {:induction false} SeriesKept(queue: seq<nat>, t: seq<nat>, t': seq<nat>)
    requires Within(queue, |t|) && |t'| == |t| && forall i <- queue :: t'[i] == t[i]
    ensures Series(queue, t') == Series(queue, t)
    decreases |queue|
  {
    if queue != [] { SeriesKept(queue[..|queue| - 1], t, t'); }
  }

  lemma SeriesLast(rest: seq<nat>, i: nat, t: seq<nat>)
    requires Within(rest, |t|) && i < |t|
    ensures Within(rest + [i], |t|) && Series(rest + [i], t) == Series(rest, t) + Times(i, t[i])
  {
    assert (rest + [i])[..|rest|] == rest;
  }

  lemma SeriesGrows(rest: seq<nat>, i: nat, t: seq<nat>, t': seq<nat>)
    requires Within(rest, |t|) && i < |t| && i !in rest && t' == t[i := t[i] + 1]
    ensures Within(rest + [i], |t|) && Series(rest + [i], t') == Series(rest + [i], t) + [i]
  {
    SeriesLast(rest, i, t);
    SeriesLast(rest, i, t');
    SeriesKept(rest, t, t');
    OnceMore(Series(rest, t), i, t[i]);
  }

  lemma OnceMore(s: seq<nat>, i: nat, k: nat)
    ensures s + Times(i, k + 1) == s + Times(i, k) + [i]
  {
    Regroup(s, Times(i, k), [i]);
  }

  lemma SeriesEnters(queue: seq<nat>, t: seq<nat>, i: nat)
    requires Within(queue, |t|) && i < |t| && t[i] == 0
    ensures Within(queue + [i], |t|) && Series(queue + [i], t) == Series(queue, t)
  {
    SeriesLast(queue, i, t);
  }

  lemma {:induction false} TimesHolds(i: nat, k: nat)
    ensures |Times(i, k)| == k && forall j <- Times(i, k) :: j == i
    ensures forall j :: multiset(Times(i, k))[j] == if j == i then k else 0
  {
    if k > 0 { TimesHolds(i, k - 1); }
  }

  lemma {:induction false} SeriesCounts(queue: seq<nat>, t: seq<nat>, i: nat)
    requires Within(queue, |t|) && Distinct(queue) && i < |t|
    ensures multiset(Series(queue, t))[i] == if i in queue then t[i] else 0
    decreases |queue|
  {
    if queue != [] {
      var rest, last := queue[..|queue| - 1], queue[|queue| - 1];
      SeriesCounts(rest, t, i);
      TimesHolds(last, t[last]);
      assert queue == rest + [last] && last !in rest;
    }
  }

  lemma {:induction false} SeriesWithin(queue: seq<nat>, t: seq<nat>)
    requires Within(queue, |t|)
    ensures forall j <- Series(queue, t) :: j in queue
    decreases |queue|
  {
    if queue != [] {
      var rest, last := queue[..|queue| - 1], queue[|queue| - 1];
      SeriesWithin(rest, t);
      TimesHolds(last, t[last]);
      assert queue == rest + [last];
    }
  }

  lemma DistinctSnoc(s: seq<nat>, x: nat)
    requires Distinct(s) && x !in s
    ensures Distinct(s + [x])
  {}

  lemma {:induction false} SeriesDistinct(queue: seq<nat>, t: seq<nat>)
    requires Within(queue, |t|) && Distinct(queue) && forall i <- t :: i <= 1
    ensures Distinct(Series(queue, t))
    decreases |queue|
  {
    if queue != [] {
      var rest, last := queue[..|queue| - 1], queue[|queue| - 1];
      SeriesDistinct(rest, t);
      SeriesWithin(rest, t);
      assert t[last] in t && queue == rest + [last] && last !in rest;
      if t[last] == 1 {
        assert Times(last, 1) == [last];
        DistinctSnoc(Series(rest, t), last);
      } else {
        assert Series(rest, t) + [] == Series(rest, t);
      }
    }
  }

  /** One step adds to the tally exactly the caller that renames. */
  lemma TallyStep(c: Codec, jobs: seq<Job>, start: File, ls: seq<Label>, ws: seq<World>, n: nat)
    requires IsRun(c, jobs, start, ls, ws) && n < |ls| && !ls[n].Edit?
    requires forall i :: 0 <= i < |jobs| ==> Knows(c, jobs, ws[n], i)
    ensures Tally(jobs, ls, ws, n + 1) == Tallied(Tally(jobs, ls, ws, n), ws[n], ls[n])
  {
    var t, t' := Tally(jobs, ls, ws, n), Tally(jobs, ls, ws, n + 1);
    forall i | 0 <= i < |jobs| ensures t'[i] == t[i] + One(Renames(ws[n], ls[n]) && ls[n].i == i) {
      CommitStep(c, jobs, ws[n], ls[n], i);
    }
  }

  function Tallied(t: seq<nat>, w: World, l: Label): seq<nat> {
    if Renames(w, l) && l.i < |t| then t[l.i := t[l.i] + 1] else t
  }

  lemma CommitStep(c: Codec, jobs: seq<Job>, w: World, l: Label, i: nat)
    requires Enabled(jobs, w, l) && !l.Edit? && i < |jobs| && Knows(c, jobs, w, i)
    ensures var w' := Next(c, jobs, w, l);
      One(VerifyFails(w, l) && l.i == i) + One(Committed(w'.pcs[i]))
        == One(Committed(w.pcs[i])) + One(Renames(w, l) && l.i == i)
  {}

  lemma {:induction false} UntakenIsUntallied(c: Codec, jobs: seq<Job>, start: File, ls: seq<Label>,
                                              ws: seq<World>, i: nat, n: nat)
    requires IsRun(c, jobs, start, ls, ws) && n <= |ls| && i < |jobs|
    ensures i !in ws[n].queue ==>
      !ws[n].pcs[i].Active() && !Committed(ws[n].pcs[i]) && FailedVerifies(ls, ws, i, n) == 0
    decreases n
  {
    if n > 0 {
      UntakenIsUntallied(c, jobs, start, ls, ws, i, n - 1);
      QueueStep(c, jobs, ws[n - 1], ls[n - 1], i);
    }
  }

  lemma QueueStep(c: Codec, jobs: seq<Job>, w: World, l: Label, i: nat)
    requires Enabled(jobs, w, l) && i < |jobs|
    requires i !in w.queue ==> !w.pcs[i].Active() && !Committed(w.pcs[i])
    ensures var w' := Next(c, jobs, w, l);
      && (i in w.queue ==> i in w'.queue)
      && (i !in w'.queue ==> !w'.pcs[i].Active() && !Committed(w'.pcs[i]))
  {
    if l.Acquire? { assert (w.queue + [l.i])[|w.queue|] == l.i; }
  }

  /** With no unlocked edit, whichever operations fail: the renames are those tallied,
      each caller's together, in the order the callers took the lock. */
  lemma {:induction false} LedgerRun(c: Codec, jobs: seq<Job>, start: File, ls: seq<Label>, ws: seq<World>, n: nat)
    requires RoundTrips(c) && IsRun(c, jobs, start, ls, ws) && n <= |ls|
    requires forall k :: 0 <= k < |ls| ==> !ls[k].Edit?
    ensures Serial(c, jobs, start, ws[n]) && ws[n].commits == Series(ws[n].queue, Tally(jobs, ls, ws, n))
    decreases n
  {
    SerialRun(c, jobs, start, ls, ws, n);
    if n > 0 {
      LedgerRun(c, jobs, start, ls, ws, n - 1);
      var l, t := ls[n - 1], Tally(jobs, ls, ws, n - 1);
      TallyStep(c, jobs, start, ls, ws, n - 1);
      if l.Acquire? { UntakenIsUntallied(c, jobs, start, ls, ws, l.i, n - 1); }
      LedgerStep(c, jobs, ws[n - 1], l, t);
    }
  }

  lemma LedgerStep(c: Codec, jobs: seq<Job>, w: World, l: Label, t: seq<nat>)
    requires Exclusive(jobs, w) && Enabled(jobs, w, l) && !l.Edit? && |t| == |jobs|
    requires l.Acquire? ==> t[l.i] == 0
    requires w.commits == Series(w.queue, t)
    ensures var w' := Next(c, jobs, w, l);
      Within(w'.queue, |t|) && w'.commits == Series(w'.queue, Tallied(t, w, l))
  {
    FileStep(c, jobs, w, l);
    if Renames(w, l) {
      var rest := w.queue[..|w.queue| - 1];
      assert w.queue == rest + [l.i];
      SeriesGrows(rest, l.i, t, t[l.i := t[l.i] + 1]);
    } else if l.Acquire? {
      SeriesEnters(w.queue, t, l.i);
    }
  }

  /** Each caller's rename counts once if it returned Ok, and otherwise not at all. */
  ghost predicate OkCountsOnce(jobs: seq<Job>, w: World)
    requires |w.pcs| == |jobs|
  {
    forall i: nat :: i < |jobs| ==> multiset(w.commits)[i] == One(w.pcs[i] == Done(Ok))
  }

  /** With no unlocked edit, whatever the interleaving and whichever operations fail: once
      every caller has returned, the file is the mutators of the callers in the order they
      took the lock, each once for every verify read of its own that failed and once more
      if it returned Ok. So it is the successful ones, each once, and no others, if and
      only if no verify read failed. */
  lemma CallersSerialize(c: Codec, jobs: seq<Job>, start: File, ls: seq<Label>, ws: seq<World>)
    requires RoundTrips(c) && IsRun(c, jobs, start, ls, ws)
    requires forall k :: 0 <= k < |ls| ==> !ls[k].Edit?
    requires forall i :: 0 <= i < |jobs| ==> ws[|ls|].pcs[i].Done?
    ensures var w := ws[|ls|];
      && Within(w.commits, |jobs|) && Replayed(c, jobs, start, w)
      && Within(w.queue, |jobs|) && Distinct(w.queue) && w.commits == Series(w.queue, Tally(jobs, ls, ws, |ls|))
      && (forall i: nat :: i < |jobs| ==>
        multiset(w.commits)[i] == FailedVerifies(ls, ws, i, |ls|) + One(w.pcs[i] == Done(Ok)))
    ensures OkCountsOnce(jobs, ws[|ls|]) <==> forall k :: 0 <= k < |ls| ==> !VerifyFails(ws[k], ls[k])
    ensures OkCountsOnce(jobs, ws[|ls|]) ==> Distinct(ws[|ls|].commits)
  {
    LedgerRun(c, jobs, start, ls, ws, |ls|);
    var w, t := ws[|ls|], Tally(jobs, ls, ws, |ls|);
    forall i: nat | i < |jobs|
      ensures multiset(w.commits)[i] == t[i] == FailedVerifies(ls, ws, i, |ls|) + One(w.pcs[i] == Done(Ok))
    {
      SeriesCounts(w.queue, t, i);
      UntakenIsUntallied(c, jobs, start, ls, ws, i, |ls|);
    }
    NoneFailsExactly(c, jobs, start, ls, ws, |ls|);
    if OkCountsOnce(jobs, w) { SeriesDistinct(w.queue, t); }
  }

  lemma NoneFailsExactly(c: Codec, jobs: seq<Job>, start: File, ls: seq<Label>, ws: seq<World>, n: nat)
    requires IsRun(c, jobs, start, ls, ws) && n <= |ls|
    ensures (forall k :: 0 <= k < n ==> !VerifyFails(ws[k], ls[k])) <==>
      forall i: nat :: i < |jobs| ==> FailedVerifies(ls, ws, i, n) == 0
  {
    forall i: nat | i < |jobs|
      ensures FailedVerifies(ls, ws, i, n) == 0 <==>
        forall k :: 0 <= k < n && VerifyFails(ws[k], ls[k]) ==> ls[k].i != i
    {
      NoFailedVerify(ls, ws, i, n);
    }
    if k :| 0 <= k < n && VerifyFails(ws[k], ls[k]) {
      assert Enabled(jobs, ws[k], ls[k]) && ls[k].i < |jobs|;
      assert FailedVerifies(ls, ws, ls[k].i, n) != 0;
    }
  }

  lemma {:induction false} NoFailedVerify(ls: seq<Label>, ws: seq<World>, i: nat, n: nat)
    requires n <= |ls| && n <= |ws|
    ensures FailedVerifies(ls, ws, i, n) == 0 <==> forall k :: 0 <= k < n && VerifyFails(ws[k], ls[k]) ==> ls[k].i != i
    decreases n
  {
    if n > 0 { NoFailedVerify(ls, ws, i, n - 1); }
  }

  /** The token is of the text the file still has. */
  ghost predicate TokenIsCurrent(w: World, i: nat) {
    i < |w.pcs| &&
    (w.pcs[i].Writing? || w.pcs[i].Rechecking? ==> w.pcs[i].seen == TextOf(w.file))
  }

  /** If no token read, re-check or verify read fails either, nobody runs out of retries. */
  lemma {:induction false} NobodyExhausts(c: Codec, jobs: seq<Job>, start: File, ls: seq<Label>,
                                          ws: seq<World>, n: nat, i: nat)
    requires RoundTrips(c) && IsRun(c, jobs, start, ls, ws) && n <= |ls| && i < |jobs|
    requires forall k :: 0 <= k < |ls| ==> !ls[k].Edit? && !VerifyFails(ws[k], ls[k])
    requires forall k :: 0 <= k < |ls| && ls[k].Move? && ls[k].failed && ls[k].i < |ws[k].pcs| ==>
      !ws[k].pcs[ls[k].i].Tokening? && !ws[k].pcs[ls[k].i].Rechecking?
    ensures TokenIsCurrent(ws[n], i) && ws[n].pcs[i] != Done(CasRetriesExhausted)
    decreases n
  {
    if n > 0 {
      NobodyExhausts(c, jobs, start, ls, ws, n - 1, i);
      SerialRun(c, jobs, start, ls, ws, n - 1);
      TokenStaysCurrent(c, jobs, ws[n - 1], ls[n - 1], i);
    }
  }

  lemma TokenStaysCurrent(c: Codec, jobs: seq<Job>, w: World, l: Label, i: nat)
    requires Exclusive(jobs, w) && Enabled(jobs, w, l) && !l.Edit? && i < |jobs| && Knows(c, jobs, w, i)
    requires l.Move? && l.failed ==>
      !w.pcs[l.i].Verifying? && !w.pcs[l.i].Tokening? && !w.pcs[l.i].Rechecking?
    requires TokenIsCurrent(w, i) && w.pcs[i] != Done(CasRetriesExhausted)
    ensures var w' := Next(c, jobs, w, l); TokenIsCurrent(w', i) && w'.pcs[i] != Done(CasRetriesExhausted)
  {}

  lemma {:induction false} ReplayKeepsPath(jobs: seq<Job>, start: Value, order: seq<nat>, p: Path)
    requires Within(order, |jobs|)
    requires forall i, v :: 0 <= i < |jobs| ==> At(jobs[i].mutate(v), p) == At(v, p)
    ensures At(Replay(jobs, start, order), p) == At(start, p)
    decreases |order|
  {
    if order != [] { ReplayKeepsPath(jobs, start, order[..|order| - 1], p); }
  }

  /** At every point of every run without an unlocked edit, the file is untouched or
      holds, at each path no mutator touches, what it held at the start. */
  lemma UntouchedPathSurvives(c: Codec, jobs: seq<Job>, start: File, ls: seq<Label>, ws: seq<World>, n: nat, p: Path)
    requires RoundTrips(c) && IsRun(c, jobs, start, ls, ws) && n <= |ls|
    requires forall k :: 0 <= k < |ls| ==> !ls[k].Edit?
    requires forall i, v :: 0 <= i < |jobs| ==> At(jobs[i].mutate(v), p) == At(v, p)
    ensures var before, now := ValueOf(c, start), ValueOf(c, ws[n].file);
      ws[n].file == start || (before.Some? && now.Some? && At(now.value, p) == At(before.value, p))
  {
    SerialRun(c, jobs, start, ls, ws, n);
    if ws[n].commits != [] { ReplayKeepsPath(jobs, ValueOf(c, start).value, ws[n].commits, p); }
  }

  // ----- a verify read that fails -----

  /** A rename that stands is applied again when its verify read fails: with a retry left,
      the caller returns Ok over its mutator applied twice, and no one edited the file. */
  lemma AppliedTwice(c: Codec, job: Job, start: File) returns (ls: seq<Label>, ws: seq<World>)
    requires RoundTrips(c) && ValueOf(c, start).Some? && job.maxRetries >= 1
    ensures IsRun(c, [job], start, ls, ws) && forall l <- ls :: !l.Edit?
    ensures ws[|ls|].pcs == [Done(Ok)]
    ensures ws[|ls|].file == Some(c.render(job.mutate(job.mutate(ValueOf(c, start).value))))
  {
    var go, v := Move(0, false), ValueOf(c, start).value;
    var once := Some(c.render(job.mutate(v)));
    ls, ws := RenamedUnverified(c, job, start);
    ws := Moved(c, job, start, ls, ws, Reading(job.maxRetries), once, false);
    ls := ls + [go];
    ws := RecheckedAlone(c, job, start, ls, ws, job.maxRetries, job.mutate(v), once);
    ls := ls + [go] + [go] + [go];
    var t := TextOf(once);
    ws := RenamedAlone(c, job, start, ls, ws, Renaming(job.maxRetries, job.mutate(v), t, t), once);
    ls := ls + [go] + [go];
  }

  /** The caller renamed and could not read the file back: with a retry left it begins
      again, and with none it returns an error while its rename stands. */
  lemma RenamedUnverified(c: Codec, job: Job, start: File) returns (ls: seq<Label>, ws: seq<World>)
    requires ValueOf(c, start).Some?
    ensures forall l <- ls :: !l.Edit?
    ensures var pc := if job.maxRetries == 0 then Done(CasRetriesExhausted) else Reading(job.maxRetries);
      Solo(c, job, start, ls, ws, pc, Some(c.render(job.mutate(ValueOf(c, start).value))))
  {
    var go, left, v := Move(0, false), job.maxRetries + 1, ValueOf(c, start).value;
    var t := TextOf(start);
    ls := [Acquire(0), go];
    ws := ValueReadAlone(c, job, start);
    ws := RecheckedAlone(c, job, start, ls, ws, left, v, start);
    ls := ls + [go] + [go] + [go];
    ws := Moved(c, job, start, ls, ws, Renaming(left, v, t, t), start, false);
    ls := ls + [go];
    ws := Moved(c, job, start, ls, ws, Verifying(left, v), Some(c.render(job.mutate(v))), true);
    ls := ls + [Move(0, true)];
  }
}
