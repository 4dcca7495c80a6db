/** update_settings as it runs: a retry loop over one file, with an editor who may act
    before any of its file operations and operations that may fail. Every execution is
    a run of the step machine. */
module SettingsUpdate {
  import opened Options
  import opened SettingsMerge
  import opened SettingsStore

  class SettingsFile {
    var file: File
    ghost var start: File
    ghost var labels: seq<Label>
    ghost var worlds: seq<World>

    constructor (file: File)
      ensures this.file == start == file && labels == [] && worlds == []
    {
      this.file := file;
      start := file;
      labels := [];
      worlds := [];
    }

    /** The recorded steps are a run of this one caller, which now stands at pc. */
    ghost predicate Traced(c: Codec, job: Job, pc: Pc)
      reads this
    {
      && IsRun(c, [job], start, labels, worlds)
      && worlds[|labels|].file == file && worlds[|labels|].pcs == [pc]
      && (pc.Active() ==> worlds[|labels|].holder == Some(0))
    }

    ghost method Record(c: Codec, job: Job, l: Label)
      requires IsRun(c, [job], start, labels, worlds) && Enabled([job], worlds[|labels|], l)
      modifies this`labels, this`worlds
      ensures IsRun(c, [job], start, labels, worlds)
      ensures worlds[|labels|] == Next(c, [job], old(worlds[|labels|]), l)
    {
      var w := Next(c, [job], worlds[|labels|], l);
      labels := labels + [l];
      worlds := worlds + [w];
    }

    /** The caller, standing at pc, takes one step of the machine. */
    ghost method Take(c: Codec, job: Job, pc: Pc, failed: bool)
      requires Traced(c, job, pc) && pc.Active()
      modifies this`labels, this`worlds
      ensures var e := Advance(c, job, pc, file, failed);
        && IsRun(c, [job], start, labels, worlds)
        && worlds[|labels|].file == e.file && worlds[|labels|].pcs == [e.pc]
        && (e.pc.Active() ==> worlds[|labels|].holder == Some(0))
    {
      Record(c, job, Move(0, failed));
    }

    /** The editor writes, removes or leaves the file. */
    method Interfere(c: Codec, job: Job, ghost pc: Pc)
      requires Traced(c, job, pc) && pc.Active()
      modifies this`file, this`labels, this`worlds
      ensures Traced(c, job, pc)
    {
      var edits: bool := *;
      if edits {
        var content: File := *;
        Record(c, job, Edit(content));
        file := content;
      }
    }

    method UpdateSettings(c: Codec, job: Job) returns (outcome: Outcome)
      requires file == start
      modifies this
      ensures start == old(start) && Traced(c, job, Done(outcome))
    {
      labels, worlds := [], [Init([job], file)];
      var failed: bool := *;
      if failed {
        Record(c, job, LockFails(0));
        return Io;
      }
      Record(c, job, Acquire(0));
      var left := job.maxRetries + 1;
      while left > 0
        invariant start == old(start)
        invariant Traced(c, job, if left > 0 then Reading(left) else Done(CasRetriesExhausted))
      {
        var result := Iterate(c, job, left);
        if result.Some? { return result.value; }
        left := left - 1;
      }
      return CasRetriesExhausted;
    }

    /** One iteration: None to retry against the latest content. */
    method Iterate(c: Codec, job: Job, left: nat) returns (result: Option<Outcome>)
      requires left > 0 && Traced(c, job, Reading(left))
      modifies this`file, this`labels, this`worlds
      ensures Traced(c, job, if result.Some? then Done(result.value) else Retry(left))
    {
      Interfere(c, job, Reading(left));
      var failed: bool := *;
      Take(c, job, Reading(left), failed);
      if failed { return Some(Io); }
      var value := Object(map[]);
      if file.Some? {
        var parsed := c.parse(file.value);
        if parsed.None? { return Some(CorruptJson); }
        value := parsed.value;
      }
      result := WriteGuarded(c, job, left, value);
    }

    /** Take the token and write the mutated value aside. */
    method WriteGuarded(c: Codec, job: Job, left: nat, value: Value) returns (result: Option<Outcome>)
      requires left > 0 && Traced(c, job, Tokening(left, value))
      modifies this`file, this`labels, this`worlds
      ensures Traced(c, job, if result.Some? then Done(result.value) else Retry(left))
    {
      Interfere(c, job, Tokening(left, value));
      var failed: bool := *;
      Take(c, job, Tokening(left, value), failed);
      var seen := ReadText(file, failed);
      var json := c.render(job.mutate(value));
      Interfere(c, job, Writing(left, value, seen));
      failed := *;
      Take(c, job, Writing(left, value, seen), failed);
      if failed { return Some(Io); }
      result := ReplaceUnchanged(c, job, left, value, seen, json);
    }

    /** Take the token again; only if it is the same, replace the file. */
    method ReplaceUnchanged(c: Codec, job: Job, left: nat, value: Value, seen: string, json: string)
      returns (result: Option<Outcome>)
      requires left > 0 && json == c.render(job.mutate(value)) && Traced(c, job, Rechecking(left, value, seen))
      modifies this`file, this`labels, this`worlds
      ensures Traced(c, job, if result.Some? then Done(result.value) else Retry(left))
    {
      Interfere(c, job, Rechecking(left, value, seen));
      var failed: bool := *;
      Take(c, job, Rechecking(left, value, seen), failed);
      var again := ReadText(file, failed);
      if c.token(again) != c.token(seen) { return None; }
      result := Replace(c, job, left, value, seen, again, json);
    }

    /** Rename the temporary file over the settings and verify what is there. */
    method Replace(c: Codec, job: Job, left: nat, value: Value, ghost seen: string, ghost again: string, json: string)
      returns (result: Option<Outcome>)
      requires left > 0 && json == c.render(job.mutate(value)) && Traced(c, job, Renaming(left, value, seen, again))
      modifies this`file, this`labels, this`worlds
      ensures Traced(c, job, if result.Some? then Done(result.value) else Retry(left))
    {
      Interfere(c, job, Renaming(left, value, seen, again));
      var failed: bool := *;
      Take(c, job, Renaming(left, value, seen, again), failed);
      if failed { return Some(Io); }
      file := Some(json);
      Interfere(c, job, Verifying(left, value));
      failed := *;
      Take(c, job, Verifying(left, value), failed);
      if !failed && file == Some(json) { return Some(Ok); }
      return None;
    }
  }
}
