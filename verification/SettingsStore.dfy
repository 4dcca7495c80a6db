/** Settings writes: any number of update_settings callers, serialised by the lock file,
    and an editor who takes no lock, as interleaved steps on one file. The value read and
    the token read of an iteration are two separate reads. */
module SettingsStore {
  import opened Options
  import opened SettingsMerge

  /** JSON text and the content token, as functions of text. */
  datatype Codec = Codec(parse: string -> Option<Value>, render: Value -> string, token: string -> int)

  ghost predicate RoundTrips(c: Codec) {
    forall v :: c.parse(c.render(v)) == Some(v)
  }

  ghost predicate Injective(c: Codec) {
    forall a, b :: c.token(a) == c.token(b) ==> a == b
  }

  /** One caller: its mutator and its retry bound. */
  datatype Job = Job(mutate: Value -> Value, maxRetries: nat)

  datatype Outcome = Ok | CorruptJson | Io | CasRetriesExhausted

  /** Where a caller stands; left counts the iterations it may still run, this one
      included. seen and again are the texts its two token reads returned. */
  datatype Pc =
    | Waiting
    | Reading(left: nat)
    | Tokening(left: nat, value: Value)
    | Writing(left: nat, value: Value, seen: string)
    | Rechecking(left: nat, value: Value, seen: string)
    | Renaming(left: nat, value: Value, seen: string, again: string)
    | Verifying(left: nat, value: Value)
    | Done(outcome: Outcome)
  {
    predicate Active() { !Waiting? && !Done? }
  }

  type File = Option<string>

  /** What a token read returns: a missing or unreadable file reads as empty text. */
  function TextOf(file: File): string { if file.Some? then file.value else "" }

  /** The text a token is taken from: a read that fails counts as empty. */
  function ReadText(file: File, failed: bool): string { if failed then "" else TextOf(file) }

  /** What the value read yields: a missing file is an empty object. */
  function ValueOf(c: Codec, file: File): Option<Value> {
    if file.Some? then c.parse(file.value) else Some(Object(map[]))
  }

  function Retry(left: nat): Pc { if left <= 1 then Done(CasRetriesExhausted) else Reading(left - 1) }

  datatype Effect = Effect(pc: Pc, file: File)

  /** One step of a caller that holds the lock; failed says this step's file operation
      returned an error. */
  function Advance(c: Codec, job: Job, pc: Pc, file: File, failed: bool): Effect
    requires pc.Active()
  {
    match pc
    case Reading(left) =>
      if failed then Effect(Done(Io), file)
      else Effect(match ValueOf(c, file) case None => Done(CorruptJson) case Some(v) => Tokening(left, v), file)
    case Tokening(left, v) => Effect(Writing(left, v, ReadText(file, failed)), file)
    case Writing(left, v, seen) => Effect(if failed then Done(Io) else Rechecking(left, v, seen), file)
    case Rechecking(left, v, seen) =>
      var again := ReadText(file, failed);
      Effect(if c.token(again) == c.token(seen) then Renaming(left, v, seen, again) else Retry(left), file)
    case Renaming(left, v, _, _) =>
      if failed then Effect(Done(Io), file)
      else Effect(Verifying(left, v), Some(c.render(job.mutate(v))))
    case Verifying(left, v) =>
      Effect(if !failed && file == Some(c.render(job.mutate(v))) then Done(Ok) else Retry(left), file)
  }

  /** queue and commits are histories: which callers took the lock, and which replaced
      the file, in order. */
  datatype World = World(file: File, holder: Option<nat>, pcs: seq<Pc>, queue: seq<nat>, commits: seq<nat>)

  datatype Label = Acquire(i: nat) | LockFails(i: nat) | Move(i: nat, failed: bool) | Edit(content: File)

  predicate Enabled(jobs: seq<Job>, w: World, l: Label) {
    |w.pcs| == |jobs| &&
    match l
    case Acquire(i) => i < |jobs| && w.pcs[i] == Waiting && w.holder == None
    case LockFails(i) => i < |jobs| && w.pcs[i] == Waiting
    case Move(i, _) => i < |jobs| && w.pcs[i].Active() && w.holder == Some(i)
    case Edit(_) => true
  }

  function Next(c: Codec, jobs: seq<Job>, w: World, l: Label): World
    requires Enabled(jobs, w, l)
  {
    match l
    case Acquire(i) => w.(holder := Some(i), pcs := w.pcs[i := Reading(jobs[i].maxRetries + 1)], queue := w.queue + [i])
    case LockFails(i) => w.(pcs := w.pcs[i := Done(Io)])
    case Edit(content) => w.(file := content)
    case Move(i, failed) =>
      var e := Advance(c, jobs[i], w.pcs[i], w.file, failed);
      World(e.file, if e.pc.Done? then None else w.holder, w.pcs[i := e.pc], w.queue,
            if e.pc.Verifying? then w.commits + [i] else w.commits)
  }

  function Init(jobs: seq<Job>, file: File): World {
    World(file, None, seq(|jobs|, _ => Waiting), [], [])
  }

  /** The worlds a sequence of steps passes through. */
  ghost predicate IsRun(c: Codec, jobs: seq<Job>, file: File, ls: seq<Label>, ws: seq<World>) {
    && |ws| == |ls| + 1 && ws[0] == Init(jobs, file)
    && (forall n :: 0 <= n <= |ls| ==> |ws[n].pcs| == |jobs|)
    && forall n :: 0 <= n < |ls| ==> Enabled(jobs, ws[n], ls[n]) && ws[n + 1] == Next(c, jobs, ws[n], ls[n])
  }

  function One(b: bool): nat { if b then 1 else 0 }

  predicate HoldsValue(pc: Pc) { pc.Active() && !pc.Reading? }

  predicate HoldsToken(pc: Pc) { pc.Writing? || pc.Rechecking? || pc.Renaming? }

  // ----- termination -----

  lemma StillOrStarting(c: Codec, jobs: seq<Job>, w: World, l: Label, i: nat)
    requires Enabled(jobs, w, l) && i < |jobs| && !(l.Move? && l.i == i)
    ensures var pc, pc' := w.pcs[i], Next(c, jobs, w, l).pcs[i];
      pc' == pc || (pc == Waiting && (pc' == Reading(jobs[i].maxRetries + 1) || pc' == Done(Io)))
  {}

  /** The steps a caller may still take: at most six in each iteration left. */
  function Rank(job: Job, pc: Pc): nat {
    match pc
    case Waiting => 6 * (job.maxRetries + 1)
    case Reading(left) => 6 * left
    case Tokening(left, _) => if left == 0 then 0 else 6 * left - 1
    case Writing(left, _, _) => if left == 0 then 0 else 6 * left - 2
    case Rechecking(left, _, _) => if left == 0 then 0 else 6 * left - 3
    case Renaming(left, _, _, _) => if left == 0 then 0 else 6 * left - 4
    case Verifying(left, _) => if left == 0 then 0 else 6 * left - 5
    case Done(_) => 0
  }

  function MovesOf(ls: seq<Label>, i: nat): nat {
    if ls == [] then 0
    else MovesOf(ls[..|ls| - 1], i)
         + if ls[|ls| - 1].Move? && ls[|ls| - 1].i == i then 1 else 0
  }

  /** Each move uses up one of the steps left. */
  lemma RankStep(c: Codec, job: Job, pc: Pc, file: File, failed: bool)
    requires pc.Active() && 1 <= pc.left <= job.maxRetries + 1
    ensures var pc' := Advance(c, job, pc, file, failed).pc;
      && (pc'.Active() ==> 1 <= pc'.left <= job.maxRetries + 1)
      && Rank(job, pc') + 1 <= Rank(job, pc)
  {}

  lemma MovesGrow(ls: seq<Label>, i: nat, n: nat)
    requires n < |ls|
    ensures MovesOf(ls[..n + 1], i) == MovesOf(ls[..n], i) + if ls[n].Move? && ls[n].i == i then 1 else 0
  {
    assert ls[..n + 1][..n] == ls[..n];
  }

  /** The moves of caller i in the first n steps that belong to the iteration with this
      many retries left. */
  ghost function MovesIn(ls: seq<Label>, ws: seq<World>, i: nat, left: nat, n: nat): nat
    requires n <= |ls| && n <= |ws|
  {
    if n == 0 then 0
    else MovesIn(ls, ws, i, left, n - 1)
         + One(ls[n - 1] in {Move(i, true), Move(i, false)} && i < |ws[n - 1].pcs| && IsIn(ws[n - 1].pcs[i], left))
  }

  predicate IsIn(pc: Pc, left: nat) { pc.Active() && pc.left == left }

  /** The moves left of the iteration a caller is in, or has yet to begin. */
  function MovesFrom(pc: Pc): nat {
    match pc
    case Waiting => 6
    case Reading(_) => 6
    case Tokening(_, _) => 5
    case Writing(_, _, _) => 4
    case Rechecking(_, _, _) => 3
    case Renaming(_, _, _, _) => 2
    case Verifying(_, _) => 1
    case Done(_) => 0
  }

  /** The moves left of the iteration with this many retries left. */
  function MovesLeft(pc: Pc, left: nat): nat {
    if pc.Active() && pc.left > left then 6
    else if pc.Active() && pc.left < left then 0
    else MovesFrom(pc)
  }

  lemma MovesLeftStep(c: Codec, job: Job, pc: Pc, file: File, failed: bool, left: nat)
    requires pc.Active() && pc.left >= 1
    ensures MovesLeft(Advance(c, job, pc, file, failed).pc, left) + One(IsIn(pc, left)) <= MovesLeft(pc, left)
  {}

  /** No iteration makes more than six moves. */
  lemma {:induction false} IterationStops(c: Codec, jobs: seq<Job>, start: File, ls: seq<Label>,
                                          ws: seq<World>, i: nat, left: nat, n: nat)
    requires IsRun(c, jobs, start, ls, ws) && i < |jobs| && n <= |ls|
    ensures MovesIn(ls, ws, i, left, n) + MovesLeft(ws[n].pcs[i], left) <= 6
    decreases n
  {
    if n > 0 {
      IterationStops(c, jobs, start, ls, ws, i, left, n - 1);
      CallerStops(c, jobs, start, ls, ws, i, n - 1);
      var w, l := ws[n - 1], ls[n - 1];
      if l.Move? && l.i == i {
        MovesLeftStep(c, jobs[i], w.pcs[i], w.file, l.failed, left);
      } else {
        StillOrStarting(c, jobs, w, l, i);
      }
    }
  }

  /** Every iteration counter stays within the bound, and steps taken plus steps left
      never exceed six for each of max_retries + 1 iterations. */
  lemma {:induction false} CallerStops(c: Codec, jobs: seq<Job>, start: File, ls: seq<Label>, ws: seq<World>,
                                       i: nat, n: nat)
    requires IsRun(c, jobs, start, ls, ws) && i < |jobs| && n <= |ls|
    ensures ws[n].pcs[i].Active() ==> 1 <= ws[n].pcs[i].left <= jobs[i].maxRetries + 1
    ensures MovesOf(ls[..n], i) + Rank(jobs[i], ws[n].pcs[i]) <= 6 * (jobs[i].maxRetries + 1)
    decreases n
  {
    if n > 0 {
      CallerStops(c, jobs, start, ls, ws, i, n - 1);
      MovesGrow(ls, i, n - 1);
      var w, l := ws[n - 1], ls[n - 1];
      if l.Move? && l.i == i {
        RankStep(c, jobs[i], w.pcs[i], w.file, l.failed);
      } else {
        StillOrStarting(c, jobs, w, l, i);
      }
    }
  }

  // ----- outcomes -----

  /** The re-check read text of another token, or the verify read did not find the text
      the caller wrote. A file that is missing or cannot be read counts as empty text. */
  ghost predicate RaceLost(c: Codec, job: Job, pc: Pc, file: File, failed: bool) {
    var text := if failed || file.None? then "" else file.value;
    || (pc.Rechecking? && c.token(text) != c.token(pc.seen))
    || (pc.Verifying? && (failed || file != Some(c.render(job.mutate(pc.value)))))
  }

  /** Over every run, when a caller ends in which way: an I/O error only and always when
      reading the value, writing or renaming failed; corrupt JSON when the file is there
      and does not parse; Ok when the file is what it wrote. A race lost is another
      iteration while one is left. A missing file is an empty object. */
  lemma OutcomesExactly(c: Codec, jobs: seq<Job>, start: File, ls: seq<Label>, ws: seq<World>, i: nat, n: nat)
    requires IsRun(c, jobs, start, ls, ws) && i < |jobs| && n < |ls| && ls[n].Move? && ls[n].i == i
    ensures var pc, pc', file, failed := ws[n].pcs[i], ws[n + 1].pcs[i], ws[n].file, ls[n].failed;
      && (pc' == Done(Io) <==> failed && (pc.Reading? || pc.Writing? || pc.Renaming?))
      && (pc' == Done(CorruptJson) <==> !failed && pc.Reading? && file.Some? && c.parse(file.value) == None)
      && (pc' == Done(Ok) <==> !failed && pc.Verifying? && file == Some(c.render(jobs[i].mutate(pc.value))))
      && (!failed && pc.Reading? && file.None? ==> pc' == Tokening(pc.left, Object(map[])))
      && (RaceLost(c, jobs[i], pc, file, failed) <==>
        pc' == if pc.Active() && pc.left > 1 then Reading(pc.left - 1) else Done(CasRetriesExhausted))
  {
    CallerStops(c, jobs, start, ls, ws, i, n);
    assert Enabled(jobs, ws[n], ls[n]) && ws[n + 1] == Next(c, jobs, ws[n], ls[n]);
  }

  /** Without taking the lock a caller ends only in an I/O error. */
  lemma LockOutcome(c: Codec, jobs: seq<Job>, start: File, ls: seq<Label>, ws: seq<World>, i: nat, n: nat)
    requires IsRun(c, jobs, start, ls, ws) && i < |jobs| && n < |ls| && ws[n].pcs[i] == Waiting
    requires ws[n + 1].pcs[i].Done?
    ensures ls[n] == LockFails(i) && ws[n + 1].pcs[i] == Done(Io)
  {
    assert Enabled(jobs, ws[n], ls[n]) && ws[n + 1] == Next(c, jobs, ws[n], ls[n]);
  }

  /** The iteration with this many retries left read its value at step m. */
  ghost predicate BegunAt(ls: seq<Label>, ws: seq<World>, i: nat, left: nat, m: nat) {
    && m < |ls| && m < |ws| && i < |ws[m].pcs|
    && ls[m].Move? && ls[m].i == i && ws[m].pcs[i] == Reading(left)
  }

  /** How many iterations a caller at pc has yet to begin. */
  function Ahead(job: Job, pc: Pc): nat {
    match pc
    case Waiting => job.maxRetries + 1
    case Reading(left) => left
    case Done(outcome) => if outcome.CasRetriesExhausted? then 0 else job.maxRetries + 1
    case _ => if pc.left == 0 then 0 else pc.left - 1
  }

  /** Every iteration before those ahead was begun; so a caller that runs out of retries
      began all max_retries + 1 of them. */
  lemma {:induction false} IterationsBegun(c: Codec, jobs: seq<Job>, start: File, ls: seq<Label>, ws: seq<World>,
                                           i: nat, n: nat, left: nat)
    requires IsRun(c, jobs, start, ls, ws) && i < |jobs| && n <= |ls|
    requires Ahead(jobs[i], ws[n].pcs[i]) < left <= jobs[i].maxRetries + 1
    ensures exists m :: 0 <= m < n && BegunAt(ls, ws, i, left, m)
    decreases n
  {
    CallerStops(c, jobs, start, ls, ws, i, n - 1);
    assert Enabled(jobs, ws[n - 1], ls[n - 1]) && ws[n] == Next(c, jobs, ws[n - 1], ls[n - 1]);
    if Ahead(jobs[i], ws[n - 1].pcs[i]) < left {
      IterationsBegun(c, jobs, start, ls, ws, i, n - 1, left);
    } else {
      assert BegunAt(ls, ws, i, left, n - 1);
    }
  }
}
