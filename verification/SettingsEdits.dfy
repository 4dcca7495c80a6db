/** Settings writes beside an editor who takes no lock, and reads that fail: what an
    iteration read, and the windows in which an edit is lost. */
module SettingsEdits {
  import opened Options
  import opened SettingsMerge
  import opened SettingsStore
  import opened SettingsSolo

  /** Step m is the value read of this iteration of caller i, and it parsed to v. An
      iteration is named by the retries it has left. */
  ghost predicate ReadAt(c: Codec, ls: seq<Label>, ws: seq<World>, i: nat, m: nat, left: nat, v: Value) {
    && m < |ls| && m < |ws| && i < |ws[m].pcs|
    && ls[m] == Move(i, false) && ws[m].pcs[i] == Reading(left) && ValueOf(c, ws[m].file) == Some(v)
  }

  /** Step m is the token read of this iteration, and it read this text. */
  ghost predicate TokenAt(ls: seq<Label>, ws: seq<World>, i: nat, m: nat, left: nat, v: Value, seen: string) {
    && m < |ls| && m < |ws| && i < |ws[m].pcs|
    && ls[m].Move? && ls[m].i == i && ws[m].pcs[i] == Tokening(left, v)
    && seen == ReadText(ws[m].file, ls[m].failed)
  }

  /** Step m is the re-check of this iteration; it read a text of the same token. */
  ghost predicate RecheckAt(c: Codec, ls: seq<Label>, ws: seq<World>, i: nat, m: nat, pc: Pc) {
    && m < |ls| && m < |ws| && i < |ws[m].pcs|
    && ls[m].Move? && ls[m].i == i && pc.Renaming? && ws[m].pcs[i] == Rechecking(pc.left, pc.value, pc.seen)
    && pc.again == ReadText(ws[m].file, ls[m].failed) && c.token(pc.again) == c.token(pc.seen)
  }

  /** The steps at which an iteration read its value, its token and its re-check. */
  datatype Reads = Reads(value: nat, token: nat, recheck: nat)

  /** A caller that stands at pc after n steps made these reads in this iteration. */
  ghost predicate Made(c: Codec, ls: seq<Label>, ws: seq<World>, i: nat, pc: Pc, n: nat, at: Reads) {
    && (HoldsValue(pc) ==> at.value < n && ReadAt(c, ls, ws, i, at.value, pc.left, pc.value))
    && (HoldsToken(pc) ==> at.value < at.token < n && TokenAt(ls, ws, i, at.token, pc.left, pc.value, pc.seen))
    && (pc.Renaming? ==> at.token < at.recheck < n && RecheckAt(c, ls, ws, i, at.recheck, pc))
  }

  /** Where the reads of an iteration were made, after its caller moves at step n. */
  function Noted(pc: Pc, n: nat, at: Reads): Reads {
    match pc
    case Reading(_) => at.(value := n)
    case Tokening(_, _) => at.(token := n)
    case Rechecking(_, _, _) => at.(recheck := n)
    case _ => at
  }

  lemma MadeStep(c: Codec, jobs: seq<Job>, start: File, ls: seq<Label>, ws: seq<World>, i: nat, n: nat,
                 failed: bool, at: Reads)
    requires IsRun(c, jobs, start, ls, ws) && i < |jobs| && n < |ls| && ls[n] == Move(i, failed)
    requires Made(c, ls, ws, i, ws[n].pcs[i], n, at)
    ensures Made(c, ls, ws, i, ws[n + 1].pcs[i], n + 1, Noted(ws[n].pcs[i], n, at))
  {
    assert Enabled(jobs, ws[n], ls[n]);
    assert ws[n + 1].pcs[i] == Advance(c, jobs[i], ws[n].pcs[i], ws[n].file, failed).pc;
  }

  lemma MadeKept(c: Codec, jobs: seq<Job>, start: File, ls: seq<Label>, ws: seq<World>, i: nat, n: nat, at: Reads)
    requires IsRun(c, jobs, start, ls, ws) && i < |jobs| && n < |ls| && !(ls[n].Move? && ls[n].i == i)
    requires Made(c, ls, ws, i, ws[n].pcs[i], n, at)
    ensures Made(c, ls, ws, i, ws[n + 1].pcs[i], n + 1, at)
  {
    StillOrStarting(c, jobs, ws[n], ls[n], i);
  }

  /** Every value, token and re-check a caller holds was read in the same iteration, in
      that order, whatever was edited since. */
  lemma {:induction false} IterationReads(c: Codec, jobs: seq<Job>, start: File, ls: seq<Label>,
                                          ws: seq<World>, i: nat, n: nat)
    returns (at: Reads)
    requires IsRun(c, jobs, start, ls, ws) && i < |jobs| && n <= |ls|
    ensures Made(c, ls, ws, i, ws[n].pcs[i], n, at)
    decreases n
  {
    if n == 0 { return Reads(0, 0, 0); }
    at := IterationReads(c, jobs, start, ls, ws, i, n - 1);
    var l := ls[n - 1];
    if l.Move? && l.i == i {
      MadeStep(c, jobs, start, ls, ws, i, n - 1, l.failed, at);
      at := Noted(ws[n - 1].pcs[i], n - 1, at);
    } else {
      MadeKept(c, jobs, start, ls, ws, i, n - 1, at);
    }
  }

  /** A caller changes the file only in a rename, and only to the rendered mutation of
      what it parsed in that same iteration: one whose own read is not JSON never writes. */
  lemma WritesOnlyItsMutation(c: Codec, jobs: seq<Job>, start: File, ls: seq<Label>, ws: seq<World>, i: nat,
                              n: nat, failed: bool)
    requires IsRun(c, jobs, start, ls, ws) && n < |ls| && ls[n] == Move(i, failed) && ws[n + 1].file != ws[n].file
    ensures i < |jobs| && ws[n].pcs[i].Renaming?
    ensures exists m, v ::
      && 0 <= m < n && ReadAt(c, ls, ws, i, m, ws[n].pcs[i].left, v)
      && ws[n + 1].file == Some(c.render(jobs[i].mutate(v)))
  {
    assert Enabled(jobs, ws[n], ls[n]) && ws[n + 1] == Next(c, jobs, ws[n], ls[n]);
    var at := IterationReads(c, jobs, start, ls, ws, i, n);
    assert ReadAt(c, ls, ws, i, at.value, ws[n].pcs[i].left, ws[n].pcs[i].value);
  }

  /** A caller returns Ok only while the file holds the rendered mutation of the value it
      parsed in that same iteration. */
  lemma OkHoldsItsMutation(c: Codec, jobs: seq<Job>, start: File, ls: seq<Label>, ws: seq<World>, i: nat, n: nat)
    requires IsRun(c, jobs, start, ls, ws) && n < |ls| && i < |jobs|
    requires ws[n].pcs[i] != Done(Ok) && ws[n + 1].pcs[i] == Done(Ok)
    ensures ws[n].pcs[i].Verifying?
    ensures exists m, v ::
      && 0 <= m < n && ReadAt(c, ls, ws, i, m, ws[n].pcs[i].left, v)
      && ws[n + 1].file == Some(c.render(jobs[i].mutate(v)))
  {
    assert Enabled(jobs, ws[n], ls[n]) && ws[n + 1] == Next(c, jobs, ws[n], ls[n]);
    var at := IterationReads(c, jobs, start, ls, ws, i, n);
    assert ReadAt(c, ls, ws, i, at.value, ws[n].pcs[i].left, ws[n].pcs[i].value);
  }

  /** At a re-check that can read the file, an iteration goes on to rename if and only
      if the text is the one its token was taken from, whatever was edited in between. */
  lemma NoEditLostBetweenTokens(c: Codec, jobs: seq<Job>, start: File, ls: seq<Label>, ws: seq<World>, i: nat, n: nat)
    returns (m: nat)
    requires Injective(c) && IsRun(c, jobs, start, ls, ws) && i < |jobs| && n < |ls|
    requires ls[n] == Move(i, false) && ws[n].pcs[i].Rechecking?
    ensures m < n && TokenAt(ls, ws, i, m, ws[n].pcs[i].left, ws[n].pcs[i].value, ws[n].pcs[i].seen)
    ensures ws[n + 1].pcs[i].Renaming? <==> TextOf(ws[n].file) == ReadText(ws[m].file, ls[m].failed)
  {
    var at := IterationReads(c, jobs, start, ls, ws, i, n);
    m := at.token;
    assert ws[n + 1] == Next(c, jobs, ws[n], ls[n]);
  }

  /** The text changed after the value was read and before the token was. */
  ghost predicate ChangedBeforeToken(ws: seq<World>, at: Reads)
    requires at.value < |ws| && at.token < |ws|
  {
    TextOf(ws[at.token].file) != TextOf(ws[at.value].file)
  }

  /** The text changed after the re-check and before the rename at step n. */
  ghost predicate ChangedAfterRecheck(ws: seq<World>, at: Reads, n: nat)
    requires at.recheck < |ws| && n < |ws|
  {
    TextOf(ws[n].file) != TextOf(ws[at.recheck].file)
  }

  /** The text changed between token and re-check, and a read that failed hid it: both
      counted as empty. */
  ghost predicate ChangedUnread(ls: seq<Label>, ws: seq<World>, at: Reads)
    requires at.token < |ls| && at.recheck < |ls| && |ws| == |ls| + 1 && ls[at.token].Move? && ls[at.recheck].Move?
  {
    && TextOf(ws[at.recheck].file) != TextOf(ws[at.token].file)
    && (ls[at.token].failed || ls[at.recheck].failed)
    && ReadText(ws[at.token].file, ls[at.token].failed) == ""
    && ReadText(ws[at.recheck].file, ls[at.recheck].failed) == ""
  }

  ghost predicate InWindow(ls: seq<Label>, ws: seq<World>, at: Reads, n: nat) {
    && at.value < at.token < at.recheck < n < |ls| && |ws| == |ls| + 1
    && ls[at.token].Move? && ls[at.recheck].Move?
    && (ChangedBeforeToken(ws, at) || ChangedAfterRecheck(ws, at, n) || ChangedUnread(ls, ws, at))
  }

  /** The text stayed as it was at the value read, the token read, the re-check and the
      rename at step n. */
  ghost predicate Unchanged(ws: seq<World>, at: Reads, n: nat)
    requires at.value < |ws| && at.token < |ws| && at.recheck < |ws| && n < |ws|
  {
    TextOf(ws[at.value].file) == TextOf(ws[at.token].file) == TextOf(ws[at.recheck].file) == TextOf(ws[n].file)
  }

  ghost predicate InOneWindow(ls: seq<Label>, ws: seq<World>, at: Reads, n: nat)
    requires InWindow(ls, ws, at, n)
  {
    One(ChangedBeforeToken(ws, at)) + One(ChangedAfterRecheck(ws, at, n)) + One(ChangedUnread(ls, ws, at)) == 1
  }

  /** In every run, before a caller renames the text changed at all if and only if it
      changed in one of three windows of that iteration: between its value read and its
      token read, between its re-check and its rename, or unseen by a read that failed.
      So text other than the text it parsed is lost only there; and a change in exactly
      one of the three is lost. */
  lemma LostOnlyInWindows(c: Codec, jobs: seq<Job>, start: File, ls: seq<Label>, ws: seq<World>, i: nat, n: nat)
    returns (at: Reads)
    requires Injective(c) && IsRun(c, jobs, start, ls, ws) && i < |jobs| && n < |ls|
    requires ls[n] == Move(i, false) && ws[n].pcs[i].Renaming?
    ensures Made(c, ls, ws, i, ws[n].pcs[i], n, at)
    ensures InWindow(ls, ws, at, n) <==> !Unchanged(ws, at, n)
    ensures TextOf(ws[n].file) != TextOf(ws[at.value].file) ==> InWindow(ls, ws, at, n)
    ensures InWindow(ls, ws, at, n) && InOneWindow(ls, ws, at, n) ==> TextOf(ws[n].file) != TextOf(ws[at.value].file)
  {
    at := IterationReads(c, jobs, start, ls, ws, i, n);
    var pc := ws[n].pcs[i];
    assert c.token(pc.again) == c.token(pc.seen);
  }

  /** Text that does not parse is renamed over only in one of those windows, or when it
      is an empty file that was missing at the value read. */
  lemma CorruptLostOnlyInWindows(c: Codec, jobs: seq<Job>, start: File, ls: seq<Label>, ws: seq<World>, i: nat, n: nat)
    returns (at: Reads)
    requires Injective(c) && IsRun(c, jobs, start, ls, ws) && i < |jobs| && n < |ls|
    requires ls[n] == Move(i, false) && ws[n].pcs[i].Renaming? && ValueOf(c, ws[n].file) == None
    ensures Made(c, ls, ws, i, ws[n].pcs[i], n, at)
    ensures InWindow(ls, ws, at, n) || (ws[at.value].file == None && ws[n].file == Some(""))
  {
    at := LostOnlyInWindows(c, jobs, start, ls, ws, i, n);
    assert ReadAt(c, ls, ws, i, at.value, ws[n].pcs[i].left, ws[n].pcs[i].value);
  }

  // ----- each window loses an edit -----

  /** Step n of a one-caller run is this edit, made while the caller stands at pc; step m
      renames over it, and the caller returns Ok with its own mutation in the file. */
  ghost predicate Loses(c: Codec, job: Job, start: File, edit: File, ls: seq<Label>, ws: seq<World>, n: nat, m: nat) {
    && IsRun(c, [job], start, ls, ws) && n < m < |ls| && ValueOf(c, start).Some?
    && ls[n] == Edit(edit)
    && ls[m] == Move(0, false) && ws[m].pcs[0].Renaming? && ws[m].file == edit
    && ws[|ls|].pcs == [Done(Ok)] && ws[|ls|].file == Some(c.render(job.mutate(ValueOf(c, start).value)))
  }

  /** Any edit made between the value read and the token read is lost. */
  lemma EditBetweenReadsIsLost(c: Codec, job: Job, start: File, edit: File) returns (ls: seq<Label>, ws: seq<World>)
    requires ValueOf(c, start).Some?
    ensures Loses(c, job, start, edit, ls, ws, 2, 6) && ws[2].pcs[0].Tokening?
  {
    var go, left, v := Move(0, false), job.maxRetries + 1, ValueOf(c, start).value;
    var t := TextOf(edit);
    ls := [Acquire(0), go];
    ws := ValueReadAlone(c, job, start);
    ws := Edited(c, job, start, ls, ws, Tokening(left, v), start, edit);
    ls := ls + [Edit(edit)];
    ws := RecheckedAlone(c, job, start, ls, ws, left, v, edit);
    ls := ls + [go] + [go] + [go];
    ws := RenamedAlone(c, job, start, ls, ws, Renaming(left, v, t, t), edit);
    ls := ls + [go] + [go];
  }

  /** Any edit made between the re-check and the rename is lost. */
  lemma EditBeforeRenameIsLost(c: Codec, job: Job, start: File, edit: File) returns (ls: seq<Label>, ws: seq<World>)
    requires ValueOf(c, start).Some?
    ensures Loses(c, job, start, edit, ls, ws, 5, 6) && ws[5].pcs[0].Renaming?
  {
    var go, left, v := Move(0, false), job.maxRetries + 1, ValueOf(c, start).value;
    var t := TextOf(start);
    ls := [Acquire(0), go];
    ws := ValueReadAlone(c, job, start);
    ws := RecheckedAlone(c, job, start, ls, ws, left, v, start);
    ls := ls + [go] + [go] + [go];
    ws := Edited(c, job, start, ls, ws, Renaming(left, v, t, t), start, edit);
    ls := ls + [Edit(edit)];
    ws := RenamedAlone(c, job, start, ls, ws, Renaming(left, v, t, t), edit);
    ls := ls + [go] + [go];
  }

  /** Any edit made between the token read and the re-check is lost if neither can read
      the file. */
  lemma EditUnreadIsLost(c: Codec, job: Job, start: File, edit: File) returns (ls: seq<Label>, ws: seq<World>)
    requires ValueOf(c, start).Some?
    ensures Loses(c, job, start, edit, ls, ws, 4, 6) && ws[4].pcs[0].Rechecking?
    ensures ls[2] == Move(0, true) && ls[5] == Move(0, true)
  {
    var go, blind, left, v := Move(0, false), Move(0, true), job.maxRetries + 1, ValueOf(c, start).value;
    ls := [Acquire(0), go];
    ws := ValueReadAlone(c, job, start);
    ws := Moved(c, job, start, ls, ws, Tokening(left, v), start, true);
    ls := ls + [blind];
    ws := Moved(c, job, start, ls, ws, Writing(left, v, ""), start, false);
    ls := ls + [go];
    ws := Edited(c, job, start, ls, ws, Rechecking(left, v, ""), start, edit);
    ls := ls + [Edit(edit)];
    ws := Moved(c, job, start, ls, ws, Rechecking(left, v, ""), edit, true);
    ls := ls + [blind];
    ws := RenamedAlone(c, job, start, ls, ws, Renaming(left, v, "", ""), edit);
    ls := ls + [go] + [go];
  }

  /** A file that was missing and is made empty before the re-check is lost: both read as
      empty text. */
  lemma EmptyFileIsLost(c: Codec, job: Job) returns (ls: seq<Label>, ws: seq<World>)
    ensures Loses(c, job, None, Some(""), ls, ws, 4, 6) && ws[4].pcs[0].Rechecking?
    ensures ls[2] == ls[5] == Move(0, false)
  {
    var go, left, v := Move(0, false), job.maxRetries + 1, Object(map[]);
    ls := [Acquire(0), go];
    ws := ValueReadAlone(c, job, None);
    ws := Moved(c, job, None, ls, ws, Tokening(left, v), None, false);
    ls := ls + [go];
    ws := Moved(c, job, None, ls, ws, Writing(left, v, ""), None, false);
    ls := ls + [go];
    ws := Edited(c, job, None, ls, ws, Rechecking(left, v, ""), None, Some(""));
    ls := ls + [Edit(Some(""))];
    ws := Moved(c, job, None, ls, ws, Rechecking(left, v, ""), Some(""), false);
    ls := ls + [go];
    ws := RenamedAlone(c, job, None, ls, ws, Renaming(left, v, "", ""), Some(""));
    ls := ls + [go] + [go];
  }

  /** So text that is not JSON can be overwritten: an edit to it in one of the windows is
      renamed over and the caller returns Ok. */
  lemma CorruptTextIsOverwritten(c: Codec, job: Job, start: File, corrupt: string)
    returns (ls: seq<Label>, ws: seq<World>)
    requires RoundTrips(c) && ValueOf(c, start).Some? && c.parse(corrupt) == None
    ensures Loses(c, job, start, Some(corrupt), ls, ws, 5, 6)
    ensures ValueOf(c, ws[6].file) == None && ValueOf(c, ws[|ls|].file).Some?
  {
    ls, ws := EditBeforeRenameIsLost(c, job, start, Some(corrupt));
  }

  // ----- a detected edit is retried -----

  /** With nobody else at work and nothing failing, a caller returns Ok over its mutator of
      the file as it was, a missing file counting as an empty object. */
  lemma SettlesAlone(c: Codec, job: Job, start: File) returns (ls: seq<Label>, ws: seq<World>)
    requires ValueOf(c, start).Some?
    ensures IsRun(c, [job], start, ls, ws) && forall l <- ls :: l.Acquire? || l == Move(0, false)
    ensures ws[|ls|].pcs == [Done(Ok)]
    ensures ws[|ls|].file ==
      Some(c.render(job.mutate(if start.None? then Object(map[]) else c.parse(start.value).value)))
  {
    var go, left, v := Move(0, false), job.maxRetries + 1, ValueOf(c, start).value;
    var t := TextOf(start);
    ls := [Acquire(0), go];
    ws := ValueReadAlone(c, job, start);
    ws := RecheckedAlone(c, job, start, ls, ws, left, v, start);
    ls := ls + [go] + [go] + [go];
    ws := RenamedAlone(c, job, start, ls, ws, Renaming(left, v, t, t), start);
    ls := ls + [go] + [go];
  }

  /** The edit is noticed: it comes between the two tokens and leaves another text. */
  lemma NoticedAlone(c: Codec, job: Job, start: File, edit: File) returns (ls: seq<Label>, ws: seq<World>)
    requires Injective(c) && ValueOf(c, start).Some? && TextOf(edit) != TextOf(start) && job.maxRetries >= 1
    ensures |ls| == 6 && ls[4] == Edit(edit) && forall l <- ls :: l.Acquire? || l == Move(0, false) || l == Edit(edit)
    ensures Solo(c, job, start, ls, ws, Reading(job.maxRetries), edit) && ws[4].pcs[0].Rechecking?
  {
    var go, left, v := Move(0, false), job.maxRetries + 1, ValueOf(c, start).value;
    var t := TextOf(start);
    ls := [Acquire(0), go];
    ws := ValueReadAlone(c, job, start);
    ws := Moved(c, job, start, ls, ws, Tokening(left, v), start, false);
    ls := ls + [go];
    ws := Moved(c, job, start, ls, ws, Writing(left, v, t), start, false);
    ls := ls + [go];
    ws := Edited(c, job, start, ls, ws, Rechecking(left, v, t), start, edit);
    ls := ls + [Edit(edit)];
    ws := Moved(c, job, start, ls, ws, Rechecking(left, v, t), edit, false);
    ls := ls + [go];
  }

  /** A noticed edit that parses is kept: with a retry left the caller runs its mutator
      again on the edited file and returns Ok over that. */
  lemma NoticedEditIsKept(c: Codec, job: Job, start: File, edit: File) returns (ls: seq<Label>, ws: seq<World>)
    requires Injective(c) && ValueOf(c, start).Some? && TextOf(edit) != TextOf(start) && job.maxRetries >= 1
    requires ValueOf(c, edit).Some?
    ensures IsRun(c, [job], start, ls, ws) && |ls| > 6 && ls[4] == Edit(edit) && ws[4].pcs[0].Rechecking?
    ensures forall l <- ls :: l.Acquire? || l == Move(0, false) || l == Edit(edit)
    ensures ws[|ls|].pcs == [Done(Ok)]
    ensures ws[|ls|].file == Some(c.render(job.mutate(ValueOf(c, edit).value)))
  {
    var go, left, v := Move(0, false), job.maxRetries, ValueOf(c, edit).value;
    var t := TextOf(edit);
    ls, ws := NoticedAlone(c, job, start, edit);
    ws := Moved(c, job, start, ls, ws, Reading(left), edit, false);
    ls := ls + [go];
    ws := RecheckedAlone(c, job, start, ls, ws, left, v, edit);
    ls := ls + [go] + [go] + [go];
    ws := RenamedAlone(c, job, start, ls, ws, Renaming(left, v, t, t), edit);
    ls := ls + [go] + [go];
  }
}
