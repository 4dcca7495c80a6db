/** Runs of one caller, built a step at a time. */
module SettingsSolo {
  import opened Options
  import opened SettingsMerge
  import opened SettingsStore

  /** A run of one caller that stands at pc, the file being this. */
  ghost predicate Solo(c: Codec, job: Job, start: File, ls: seq<Label>, ws: seq<World>, pc: Pc, file: File) {
    && IsRun(c, [job], start, ls, ws)
    && ws[|ls|].pcs == [pc] && ws[|ls|].file == file && (pc.Active() ==> ws[|ls|].holder == Some(0))
  }

  /** The run goes on with one more step. */
  lemma Extended(c: Codec, job: Job, start: File, ls: seq<Label>, ws: seq<World>, l: Label) returns (ws': seq<World>)
    requires IsRun(c, [job], start, ls, ws) && Enabled([job], ws[|ls|], l)
    ensures ws' == ws + [Next(c, [job], ws[|ls|], l)] && IsRun(c, [job], start, ls + [l], ws')
  {
    ws' := ws + [Next(c, [job], ws[|ls|], l)];
    assert forall n :: 0 <= n < |ls| ==> (ls + [l])[n] == ls[n];
  }

  lemma Moved(c: Codec, job: Job, start: File, ls: seq<Label>, ws: seq<World>, pc: Pc, file: File, failed: bool)
    returns (ws': seq<World>)
    requires Solo(c, job, start, ls, ws, pc, file) && pc.Active()
    ensures ws <= ws'
    ensures var e := Advance(c, job, pc, file, failed); Solo(c, job, start, ls + [Move(0, failed)], ws', e.pc, e.file)
  {
    ws' := Extended(c, job, start, ls, ws, Move(0, failed));
  }

  lemma Edited(c: Codec, job: Job, start: File, ls: seq<Label>, ws: seq<World>, pc: Pc, file: File, edit: File)
    returns (ws': seq<World>)
    requires Solo(c, job, start, ls, ws, pc, file)
    ensures ws <= ws' && Solo(c, job, start, ls + [Edit(edit)], ws', pc, edit)
  {
    ws' := Extended(c, job, start, ls, ws, Edit(edit));
  }

  lemma ValueReadAlone(c: Codec, job: Job, start: File) returns (ws: seq<World>)
    requires ValueOf(c, start).Some?
    ensures Solo(c, job, start, [Acquire(0), Move(0, false)], ws,
                 Tokening(job.maxRetries + 1, ValueOf(c, start).value), start)
  {
    ws := [Init([job], start)];
    ws := Extended(c, job, start, [], ws, Acquire(0));
    assert [] + [Acquire(0)] == [Acquire(0)];
    ws := Moved(c, job, start, [Acquire(0)], ws, Reading(job.maxRetries + 1), start, false);
    assert [Acquire(0)] + [Move(0, false)] == [Acquire(0), Move(0, false)];
  }

  lemma RenamedAlone(c: Codec, job: Job, start: File, ls: seq<Label>, ws: seq<World>, pc: Pc, file: File)
    returns (ws': seq<World>)
    requires Solo(c, job, start, ls, ws, pc, file) && pc.Renaming?
    ensures ws <= ws'
    ensures Solo(c, job, start, ls + [Move(0, false)] + [Move(0, false)], ws',
                 Done(Ok), Some(c.render(job.mutate(pc.value))))
  {
    var wrote := Advance(c, job, pc, file, false);
    ws' := Moved(c, job, start, ls, ws, pc, file, false);
    ws' := Moved(c, job, start, ls + [Move(0, false)], ws', wrote.pc, wrote.file, false);
  }

  lemma RecheckedAlone(c: Codec, job: Job, start: File, ls: seq<Label>, ws: seq<World>, left: nat, v: Value, file: File)
    returns (ws': seq<World>)
    requires Solo(c, job, start, ls, ws, Tokening(left, v), file)
    ensures ws <= ws'
    ensures var go, t := Move(0, false), TextOf(file);
      Solo(c, job, start, ls + [go] + [go] + [go], ws', Renaming(left, v, t, t), file)
  {
    var go, t := Move(0, false), TextOf(file);
    ws' := Moved(c, job, start, ls, ws, Tokening(left, v), file, false);
    ws' := Moved(c, job, start, ls + [go], ws', Writing(left, v, t), file, false);
    ws' := Moved(c, job, start, ls + [go] + [go], ws', Rechecking(left, v, t), file, false);
  }
}
