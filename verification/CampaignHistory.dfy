/** Campaigns over many invocations of scripts/run_terminal_bench_campaign.py, some of them cut short. */
module CampaignHistory {
  import opened Utils
  import opened Campaign

  // ---------- one step ----------

  /** An invocation that ran to its end, or one that was killed or raised after `written` of its records. */
  datatype Step =
    | Finished(w: World, args: Arguments, launched: seq<Job>, order: seq<Job>, code: int)
    | Killed(w: World, args: Arguments, launched: seq<Job>, order: seq<Job>, written: nat)

  /**
   * A killed invocation leaves the manifest as it was, or pins its settings and writes the first of its records.
   * Jobs are launched once all adopted ones are on record. They are the first of those the whole invocation would
   * launch, every job on record is one of them, and without parallel jobs at most one is not on record yet.
   */
  ghost predicate CutShort(before: Manifest, step: Step, after: Manifest)
    requires step.Killed?
  {
    var log := Writes(step.w, step.args, before.tasksRun, step.order);
    var adopted := |log| - |step.order|;
    || (after == before && step.launched == [])
    || (&& !Refused(step.args, before)
        && step.launched <= Launches(step.w, step.args, before.tasksRun)
        && Finishes(step.args, Launches(step.w, step.args, before.tasksRun), step.order)
        && step.written <= |log| && (step.launched != [] ==> adopted <= step.written)
        && (step.args.maxParallel <= 1 && step.launched != [] ==> |step.launched| <= step.written - adopted + 1)
        && (forall i :: 0 <= i < step.written - adopted && i < |step.order| ==> step.order[i] in step.launched)
        && after == Manifest(Some(step.args.pinned), UpsertAll(before.tasksRun, log[..step.written])))
  }

  ghost predicate Transition(before: Manifest, step: Step, after: Manifest) {
    match step
    case Finished(w, args, launched, order, code) => Invocation(w, args, before, after, code, launched, order)
    case Killed(_, _, _, _, _) => CutShort(before, step, after)
  }

  /** `history[i]` is the manifest before step `i`. */
  ghost predicate IsHistory(history: seq<Manifest>, steps: seq<Step>) {
    && |history| == |steps| + 1
    && forall i :: 0 <= i < |steps| ==> Transition(history[i], steps[i], history[i + 1])
  }

  /** Keys are unique, and nothing is recorded before the settings are pinned. */
  ghost predicate Sound(m: Manifest) {
    UniqueKeys(m.tasksRun) && (m.pinned == None ==> m.tasksRun == [])
  }

  // ---------- what a step keeps ----------

  ghost predicate KeepsCompleted(earlier: seq<Record>, later: seq<Record>, required: int) {
    forall t :: t in CompletedJobs(earlier, required) ==>
      t in CompletedJobs(later, required) && CompletedJobs(later, required)[t] == CompletedJobs(earlier, required)[t]
  }

  lemma RespectfulKeepsCompleted(before: seq<Record>, log: seq<Record>, required: int)
    requires Respectful(before, log, required)
    ensures KeepsCompleted(before, UpsertAll(before, log), required)
  {
    forall t | t in CompletedJobs(before, required)
      ensures t in CompletedJobs(UpsertAll(before, log), required)
      ensures CompletedJobs(UpsertAll(before, log), required)[t] == CompletedJobs(before, required)[t]
    {
      CompletedForever(before, log, required, t);
    }
  }

  lemma {:induction false} RespectfulPrefix(records: seq<Record>, log: seq<Record>, n: nat, required: int)
    requires n <= |log| && Respectful(records, log, required)
    ensures Respectful(records, log[..n], required)
    decreases n
  {
    hide CompletedJobs, Upsert;
    if n > 0 {
      RespectfulPrefix(Upsert(records, log[0]), log[1..], n - 1, required);
      assert log[..n][1..] == log[1..][..n - 1];
    }
  }

  lemma {:induction false} KeysStayUnique(records: seq<Record>, log: seq<Record>)
    requires UniqueKeys(records)
    ensures UniqueKeys(UpsertAll(records, log))
    decreases |log|
  {
    hide UniqueKeys, Upsert;
    if log != [] {
      UpsertKeepsKeysUnique(records, log[0]);
      KeysStayUnique(Upsert(records, log[0]), log[1..]);
    }
  }

  /** Every step, also one cut short, is a respectful log written under the settings it pins. */
  lemma StepIsRespectful(before: Manifest, step: Step, after: Manifest) returns (log: seq<Record>)
    requires Transition(before, step, after)
    ensures after.tasksRun == UpsertAll(before.tasksRun, log)
    ensures after.pinned.Some? ==> Respectful(before.tasksRun, log, Required(after.pinned.value.attempts))
    ensures after.pinned == None ==> before.pinned == None && log == []
    ensures before.pinned.Some? ==> after.pinned == before.pinned
    ensures step.launched != [] ==> after.pinned == Some(step.args.pinned)
    ensures forall j :: j in step.launched ==> Open(before.tasksRun, j.task, step.args.pinned.attempts)
  {
    hide CompletedJobs, Respectful, UpsertAll, Writes, Launches, Open, Finishes;
    var w, args, records := step.w, step.args, before.tasksRun;
    log := [];
    if after.pinned.Some? {
      NothingLogged(records, Required(after.pinned.value.attempts));
    } else {
      NothingLogged(records, 0);
    }
    if step.Finished? {
      if !Refused(args, before) {
        InvocationMeans(w, args, before, after, step.code, step.launched, step.order);
        log := Writes(w, args, records, step.order);
      }
    } else if !(after == before && step.launched == []) {
      LaunchedFacts(w, args, records);
      WritesAreFresh(w, args, records, step.order);
      var all := Writes(w, args, records, step.order);
      FreshLog(records, all, Required(args.pinned.attempts), "");
      RespectfulPrefix(records, all, step.written, Required(args.pinned.attempts));
      log := all[..step.written];
    }
  }

  // ---------- whole histories ----------

  /** Each manifest of a history keeps what every earlier one has completed. */
  ghost predicate NothingLost(history: seq<Manifest>, required: int) {
    forall i, k :: 0 <= i <= k < |history| ==> KeepsCompleted(history[i].tasksRun, history[k].tasksRun, required)
  }

  /** No step launches a benchmark that the manifest before it has completed. */
  ghost predicate NothingRerun(history: seq<Manifest>, steps: seq<Step>, required: int)
    requires |history| == |steps| + 1
  {
    forall i, j :: 0 <= i < |steps| && j in steps[i].launched ==>
      j.task !in CompletedJobs(history[i].tasksRun, required)
  }

  lemma {:induction false} HistoryStaysSound(history: seq<Manifest>, steps: seq<Step>, i: nat, k: nat)
    requires IsHistory(history, steps) && Sound(history[0]) && i <= k <= |steps|
    ensures Sound(history[k])
    ensures history[i].pinned.Some? ==> history[k].pinned == history[i].pinned
    decreases k
  {
    hide Transition, UniqueKeys, UpsertAll, Respectful;
    if k > 0 {
      HistoryStaysSound(history, steps, if i < k then i else k - 1, k - 1);
      var log := StepIsRespectful(history[k - 1], steps[k - 1], history[k]);
      KeysStayUnique(history[k - 1].tasksRun, log);
      if history[k].pinned == None {
        NothingLogged(history[k - 1].tasksRun, 0);
      }
    }
  }

  lemma KeepsItself(records: seq<Record>, required: int)
    ensures KeepsCompleted(records, records, required) && KeepsCompleted([], records, required)
  {
  }

  lemma KeepsCompletedTrans(a: seq<Record>, b: seq<Record>, c: seq<Record>, required: int)
    requires KeepsCompleted(a, b, required) && KeepsCompleted(b, c, required)
    ensures KeepsCompleted(a, c, required)
  {
  }

  lemma {:induction false} KeptBetween(history: seq<Manifest>, steps: seq<Step>, i: nat, k: nat, p: Pinned)
    requires IsHistory(history, steps) && Sound(history[0]) && i <= k <= |steps|
    requires history[|steps|].pinned == Some(p)
    ensures KeepsCompleted(history[i].tasksRun, history[k].tasksRun, Required(p.attempts))
    decreases k
  {
    hide KeepsCompleted, Transition, UniqueKeys, UpsertAll, Respectful, Required;
    var required := Required(p.attempts);
    KeepsItself(history[k].tasksRun, required);
    if i < k {
      KeptBetween(history, steps, i, k - 1, p);
      var log := StepIsRespectful(history[k - 1], steps[k - 1], history[k]);
      HistoryStaysSound(history, steps, k, |steps|);
      if history[k].pinned == None {
        NothingLogged(history[k - 1].tasksRun, required);
      } else {
        RespectfulKeepsCompleted(history[k - 1].tasksRun, log, required);
        KeepsCompletedTrans(history[i].tasksRun, history[k - 1].tasksRun, history[k].tasksRun, required);
      }
    }
  }

  /**
   * Over any sequence of invocations, in any worlds and with any arguments, each run to its end or cut short:
   * the settings stay pinned, keys stay unique, and a completed record is never launched again, replaced or lost.
   */
  lemma CampaignIsSafe(history: seq<Manifest>, steps: seq<Step>)
    requires IsHistory(history, steps) && Sound(history[0])
    ensures forall i :: 0 <= i <= |steps| ==> Sound(history[i])
    ensures forall i, k :: 0 <= i <= k <= |steps| && history[i].pinned.Some? ==> history[k].pinned == history[i].pinned
    ensures var last := history[|steps|].pinned;
      && (last.Some? ==>
            && NothingLost(history, Required(last.value.attempts))
            && NothingRerun(history, steps, Required(last.value.attempts)))
      && (last == None ==> forall i :: 0 <= i < |steps| ==> steps[i].launched == [])
  {
    hide Transition, Sound, KeepsCompleted, CompletedJobs, Required;
    forall i, k | 0 <= i <= k <= |steps|
      ensures Sound(history[k]) && (history[i].pinned.Some? ==> history[k].pinned == history[i].pinned)
    {
      HistoryStaysSound(history, steps, i, k);
    }
    var last := history[|steps|].pinned;
    if last.Some? {
      forall i, k | 0 <= i <= k <= |steps|
        ensures KeepsCompleted(history[i].tasksRun, history[k].tasksRun, Required(last.value.attempts))
      {
        KeptBetween(history, steps, i, k, last.value);
      }
    }
    forall i, j | 0 <= i < |steps| && j in steps[i].launched
      ensures last.Some? && j.task !in CompletedJobs(history[i].tasksRun, Required(last.value.attempts))
    {
      var log := StepIsRespectful(history[i], steps[i], history[i + 1]);
    }
    forall i | 0 <= i < |steps|
      ensures last == None ==> steps[i].launched == []
    {
      var log := StepIsRespectful(history[i], steps[i], history[i + 1]);
    }
  }

  // ---------- the script run again and again ----------

  /** Any sequence of invocations on one campaign directory, new or old, is such a history. */
  method Reruns(c: CampaignDir, invocations: seq<(World, Arguments)>)
      returns (codes: seq<int>, launched: seq<seq<Job>>, ghost history: seq<Manifest>, ghost steps: seq<Step>)
    requires c.Valid() && (c.pinned == None ==> c.tasksRun == [])
    modifies c
    ensures c.Valid() && |steps| == |invocations| == |codes| == |launched|
    ensures IsHistory(history, steps) && history[0] == old(c.Value()) && history[|steps|] == c.Value()
    ensures forall i :: 0 <= i < |steps| ==>
              && steps[i].Finished? && steps[i].w == invocations[i].0 && steps[i].args == invocations[i].1
              && steps[i].code == codes[i] && steps[i].launched == launched[i]
    ensures forall i :: 0 <= i <= |steps| ==> Sound(history[i])
    ensures c.pinned.Some? ==> NothingLost(history, Required(c.pinned.value.attempts))
    ensures c.pinned.Some? ==> NothingRerun(history, steps, Required(c.pinned.value.attempts))
    ensures c.pinned == None ==> forall jobs :: jobs in launched ==> jobs == []
  {
    hide CompletedJobs, UniqueKeys, Invocation, NothingLost;
    codes, launched, history, steps := [], [], [c.Value()], [];
    for k := 0 to |invocations|
      invariant c.Valid() && (c.pinned == None ==> c.tasksRun == [])
      invariant |steps| == |codes| == |launched| == k && IsHistory(history, steps)
      invariant history[0] == old(c.Value()) && history[k] == c.Value()
      invariant forall i :: 0 <= i < k ==>
                  && steps[i].Finished? && steps[i].w == invocations[i].0 && steps[i].args == invocations[i].1
                  && steps[i].code == codes[i] && steps[i].launched == launched[i]
    {
      var (w, args) := invocations[k];
      var code, jobs;
      ghost var log, order;
      code, jobs, log, order := c.Invoke(w, args);
      codes, launched := codes + [code], launched + [jobs];
      steps, history := steps + [Finished(w, args, jobs, order, code)], history + [c.Value()];
    }
    CampaignIsSafe(history, steps);
  }
}
