/** The resumable benchmark campaign of scripts/run_terminal_bench_campaign.py. */
module Campaign {
  import opened Utils

  // ---------- records ----------

  /** Only an int or a float counts as a reward. */
  datatype Reward = Number(value: real) | NotANumber

  datatype Trial = Trial(name: string, reward: Reward)

  datatype Status = Completed | PartialReward | NoReward | FailedToProduceResult | MissingTrialResults

  datatype Record = Record(
    task: string, job: string, status: Status, returnCode: Option<int>, mean: Option<real>, trials: seq<Trial>)

  function NumericRewards(trials: seq<Trial>): seq<real> {
    if trials == [] then []
    else (if trials[0].reward.Number? then [trials[0].reward.value] else []) + NumericRewards(trials[1..])
  }

  function Sum(xs: seq<real>): real {
    if xs == [] then 0.0 else xs[0] + Sum(xs[1..])
  }

  /** `summarize_job`: no mean without a numeric reward. */
  function Mean(trials: seq<Trial>): Option<real> {
    var xs := NumericRewards(trials);
    if xs == [] then None else Some(Sum(xs) / |xs| as real)
  }

  lemma {:induction false} RewardsConcat(a: seq<Trial>, b: seq<Trial>)
    ensures NumericRewards(a + b) == NumericRewards(a) + NumericRewards(b)
  {
    if a == [] {
      assert a + b == b;
    } else {
      RewardsConcat(a[1..], b);
      assert (a + b)[1..] == a[1..] + b;
      var first := if a[0].reward.Number? then [a[0].reward.value] else [];
      assert NumericRewards(a + b) == first + NumericRewards(a[1..] + b);
      assert first + (NumericRewards(a[1..]) + NumericRewards(b)) == first + NumericRewards(a[1..]) + NumericRewards(b);
    }
  }

  /** The indices of the trials with a numeric reward. */
  function NumericTrials(trials: seq<Trial>): set<nat> {
    set i: nat | i < |trials| && trials[i].reward.Number?
  }

  lemma NoTrials()
    ensures NumericTrials([]) == {} && NumericRewards([]) == []
  {
  }

  lemma OneTrial(t: Trial)
    ensures NumericRewards([t]) == if t.reward.Number? then [t.reward.value] else []
  {
    assert [t][1..] == [];
  }

  lemma NextTrial(front: seq<Trial>, last: Trial)
    ensures |NumericTrials(front + [last])| == |NumericTrials(front)| + if last.reward.Number? then 1 else 0
    ensures forall i :: i in NumericTrials(front + [last]) <==>
              i in NumericTrials(front) || (i == |front| && last.reward.Number?)
    ensures forall i :: i in NumericTrials(front) ==> i < |front|
  {
    var all := NumericTrials(front + [last]);
    if last.reward.Number? {
      assert all == NumericTrials(front) + {|front|};
    } else {
      assert all == NumericTrials(front);
    }
  }

  /** Exactly the numeric rewards are counted, each once and in order. */
  lemma {:induction false} RewardsCounted(trials: seq<Trial>)
    ensures |NumericRewards(trials)| == |NumericTrials(trials)|
    ensures forall x :: x in NumericRewards(trials) <==>
              exists i :: i in NumericTrials(trials) && trials[i].reward.value == x
  {
    hide NumericTrials, NumericRewards;
    if trials == [] {
      NoTrials();
    } else {
      var front, last := trials[..|trials| - 1], trials[|trials| - 1];
      RewardsCounted(front);
      RewardsConcat(front, [last]);
      OneTrial(last);
      assert trials == front + [last];
      NextTrial(front, last);
    }
  }

  lemma AtLeastNext(n: nat, lo: real, x: real, sum: real)
    requires n as real * lo <= sum && lo <= x
    ensures (n + 1) as real * lo <= x + sum
  {
    assert (n + 1) as real * lo == n as real * lo + lo;
  }

  lemma AtMostNext(n: nat, hi: real, x: real, sum: real)
    requires sum <= n as real * hi && x <= hi
    ensures x + sum <= (n + 1) as real * hi
  {
    assert (n + 1) as real * hi == n as real * hi + hi;
  }

  lemma {:induction false} SumBounds(xs: seq<real>, lo: real, hi: real)
    requires forall x :: x in xs ==> lo <= x <= hi
    ensures |xs| as real * lo <= Sum(xs) <= |xs| as real * hi
  {
    if xs != [] {
      assert xs[0] in xs && forall x :: x in xs[1..] ==> x in xs;
      SumBounds(xs[1..], lo, hi);
      AtLeastNext(|xs[1..]|, lo, xs[0], Sum(xs[1..]));
      AtMostNext(|xs[1..]|, hi, xs[0], Sum(xs[1..]));
    }
  }

  /** The mean is there iff a reward is numeric, times their number it is their sum, and it lies between them. */
  lemma MeanIsAverage(trials: seq<Trial>, lo: real, hi: real)
    requires forall x :: x in NumericRewards(trials) ==> lo <= x <= hi
    ensures Mean(trials).Some? <==> NumericTrials(trials) != {}
    ensures Mean(trials).Some? ==>
              && Mean(trials).value * |NumericTrials(trials)| as real == Sum(NumericRewards(trials))
              && lo <= Mean(trials).value <= hi
  {
    hide NumericTrials, NumericRewards, Sum;
    RewardsCounted(trials);
    var xs := NumericRewards(trials);
    if xs != [] {
      SumBounds(xs, lo, hi);
      QuotientBounds(Sum(xs), |xs| as real, lo, hi);
    }
  }

  lemma QuotientBounds(a: real, b: real, lo: real, hi: real)
    requires b > 0.0 && b * lo <= a <= b * hi
    ensures a / b * b == a && lo <= a / b <= hi
  {
  }

  predicate SameKey(a: Record, b: Record) {
    a.task == b.task && a.job == b.job
  }

  ghost predicate UniqueKeys(records: seq<Record>) {
    forall i, j :: 0 <= i < j < |records| ==> !SameKey(records[i], records[j])
  }

  /** The first record with the same key is replaced; without one the record is added at the end. */
  function Upsert(records: seq<Record>, r: Record): seq<Record> {
    if records == [] then [r]
    else if SameKey(records[0], r) then [r] + records[1..]
    else [records[0]] + Upsert(records[1..], r)
  }

  /** `int(manifest.get("attempts_per_task") or 1)`. */
  function Required(attempts: int): int {
    if attempts == 0 then 1 else attempts
  }

  predicate IsComplete(r: Record, required: int) {
    r.status == Completed && r.task != "" && r.mean.Some? && |NumericRewards(r.trials)| >= required
  }

  /** Per task the last complete record. */
  function CompletedJobs(records: seq<Record>, required: int): map<string, Record> {
    if records == [] then map[]
    else (if IsComplete(records[0], required) then map[records[0].task := records[0]] else map[])
         + CompletedJobs(records[1..], required)
  }

  lemma CompletedStep(records: seq<Record>, k: nat, required: int)
    requires k < |records|
    ensures CompletedJobs(records[k..], required) ==
            (if IsComplete(records[k], required) then map[records[k].task := records[k]] else map[])
            + CompletedJobs(records[k + 1..], required)
  {
    hide IsComplete;
    assert records[k..][1..] == records[k + 1..];
  }

  lemma CompletedEnds(records: seq<Record>, required: int)
    ensures CompletedJobs(records[0..], required) == CompletedJobs(records, required)
    ensures CompletedJobs(records[|records|..], required) == map[]
  {
    assert records[0..] == records;
  }

  // ---------- what an upsert does ----------

  lemma {:induction false} UpsertOtherTask(records: seq<Record>, r: Record, required: int, t: string)
    requires t != r.task
    ensures t in CompletedJobs(Upsert(records, r), required) <==> t in CompletedJobs(records, required)
    ensures t in CompletedJobs(records, required) ==>
              CompletedJobs(Upsert(records, r), required)[t] == CompletedJobs(records, required)[t]
  {
    hide IsComplete;
    if records == [] {
      assert [r][1..] == [];
    } else if SameKey(records[0], r) {
      assert ([r] + records[1..])[1..] == records[1..];
    } else {
      UpsertOtherTask(records[1..], r, required, t);
      assert ([records[0]] + Upsert(records[1..], r))[1..] == Upsert(records[1..], r);
    }
  }

  /** For a benchmark not completed so far, everything hangs on the record written. */
  lemma {:induction false} UpsertDone(records: seq<Record>, r: Record, required: int)
    requires r.task !in CompletedJobs(records, required)
    ensures r.task in CompletedJobs(Upsert(records, r), required) <==> IsComplete(r, required)
  {
    hide IsComplete;
    if records == [] {
      assert [r][1..] == [];
    } else if SameKey(records[0], r) {
      assert ([r] + records[1..])[1..] == records[1..];
    } else {
      UpsertDone(records[1..], r, required);
      assert ([records[0]] + Upsert(records[1..], r))[1..] == Upsert(records[1..], r);
    }
  }

  lemma {:induction false} CompletedAreComplete(records: seq<Record>, required: int, t: string)
    requires t in CompletedJobs(records, required)
    ensures var r := CompletedJobs(records, required)[t];
      r in records && r.task == t && IsComplete(r, required)
  {
    hide IsComplete;
    if t in CompletedJobs(records[1..], required) {
      CompletedAreComplete(records[1..], required, t);
    }
  }

  /** Status, name, mean and number of numeric rewards decide whether a record counts. */
  ghost predicate CountsFor(r: Record, t: string, required: int) {
    r.task == t && t != "" && r.status == Completed && r.mean.Some? && |NumericTrials(r.trials)| >= required
  }

  lemma CountsForMeans(records: seq<Record>, required: int)
    ensures forall r, t :: CountsFor(r, t, required) <==> r.task == t && IsComplete(r, required)
  {
    hide NumericTrials, NumericRewards;
    forall r: Record, t
      ensures CountsFor(r, t, required) <==> r.task == t && IsComplete(r, required)
    {
      RewardsCounted(r.trials);
    }
  }

  /** A benchmark is completed iff a record counts for it, and then it is the last such record that is looked up. */
  lemma {:induction false} CompletedMeans(records: seq<Record>, required: int, t: string)
    ensures t in CompletedJobs(records, required) <==> exists r :: r in records && CountsFor(r, t, required)
    ensures t in CompletedJobs(records, required) ==>
              exists k :: 0 <= k < |records| && CountsFor(records[k], t, required)
                && CompletedJobs(records, required)[t] == records[k]
                && forall i :: k < i < |records| ==> !CountsFor(records[i], t, required)
  {
    hide IsComplete, CountsFor;
    CountsForMeans(records, required);
    if records != [] {
      CompletedMeans(records[1..], required, t);
      assert records == [records[0]] + records[1..];
      if t in CompletedJobs(records[1..], required) {
        var k :| 0 <= k < |records[1..]| && CountsFor(records[1..][k], t, required)
                 && CompletedJobs(records[1..], required)[t] == records[1..][k]
                 && forall i :: k < i < |records[1..]| ==> !CountsFor(records[1..][i], t, required);
        assert records[k + 1] == records[1..][k];
        forall i | k + 1 < i < |records|
          ensures !CountsFor(records[i], t, required)
        {
          assert records[i] == records[1..][i - 1];
        }
      } else {
        forall i | 0 < i < |records|
          ensures !CountsFor(records[i], t, required)
        {
          assert records[i] == records[1..][i - 1] && records[1..][i - 1] in records[1..];
        }
        if t in CompletedJobs(records, required) {
          assert CountsFor(records[0], t, required) && CompletedJobs(records, required)[t] == records[0];
        }
      }
    }
  }

  lemma {:induction false} UpsertAt(records: seq<Record>, r: Record, k: nat)
    requires k < |records| && SameKey(records[k], r)
    requires forall i :: 0 <= i < k ==> !SameKey(records[i], r)
    ensures Upsert(records, r) == records[k := r]
  {
    if k > 0 {
      UpsertAt(records[1..], r, k - 1);
    }
  }

  lemma {:induction false} UpsertNew(records: seq<Record>, r: Record)
    requires forall i :: 0 <= i < |records| ==> !SameKey(records[i], r)
    ensures Upsert(records, r) == records + [r]
  {
    if records != [] {
      UpsertNew(records[1..], r);
    }
  }

  lemma FirstMatch(records: seq<Record>, r: Record) returns (k: nat)
    ensures k <= |records| && (forall i :: 0 <= i < k ==> !SameKey(records[i], r))
    ensures k < |records| ==> SameKey(records[k], r)
  {
    k := 0;
    while k < |records| && !SameKey(records[k], r)
      invariant k <= |records| && forall i :: 0 <= i < k ==> !SameKey(records[i], r)
    {
      k := k + 1;
    }
  }

  lemma UpsertKeepsKeysUnique(records: seq<Record>, r: Record)
    requires UniqueKeys(records)
    ensures UniqueKeys(Upsert(records, r))
  {
    var k := FirstMatch(records, r);
    if k < |records| {
      UpsertAt(records, r, k);
    } else {
      UpsertNew(records, r);
    }
  }

  // ---------- sequences of upserts that respect what is completed ----------

  ghost function UpsertAll(records: seq<Record>, log: seq<Record>): seq<Record>
    decreases |log|
  {
    if log == [] then records else UpsertAll(Upsert(records, log[0]), log[1..])
  }

  /** No record of `log` is written for a task that is completed by then. */
  ghost predicate Respectful(records: seq<Record>, log: seq<Record>, required: int)
    decreases |log|
  {
    log == [] ||
    (log[0].task !in CompletedJobs(records, required) && Respectful(Upsert(records, log[0]), log[1..], required))
  }

  /** A task recorded completed keeps that very record, and keys stay unique. */
  lemma {:induction false} CompletedForever(records: seq<Record>, log: seq<Record>, required: int, t: string)
    requires Respectful(records, log, required) && t in CompletedJobs(records, required)
    ensures t in CompletedJobs(UpsertAll(records, log), required)
    ensures CompletedJobs(UpsertAll(records, log), required)[t] == CompletedJobs(records, required)[t]
    decreases |log|
  {
    hide CompletedJobs, Upsert;
    if log != [] {
      UpsertOtherTask(records, log[0], required, t);
      CompletedForever(Upsert(records, log[0]), log[1..], required, t);
    }
  }

  lemma {:induction false} RespectfulConcat(records: seq<Record>, a: seq<Record>, b: seq<Record>, required: int)
    requires Respectful(records, a, required) && Respectful(UpsertAll(records, a), b, required)
    ensures Respectful(records, a + b, required) && UpsertAll(records, a + b) == UpsertAll(UpsertAll(records, a), b)
    decreases |a|
  {
    hide CompletedJobs, Upsert;
    if a == [] {
      assert a + b == b;
    } else {
      RespectfulConcat(Upsert(records, a[0]), a[1..], b, required);
      assert (a + b)[1..] == a[1..] + b;
    }
  }

  // ---------- the outside world, as an oracle ----------

  /** A job directory with its `result.json`, if any, and its trial results. */
  datatype JobDir = JobDir(name: string, hasResult: bool, trials: seq<Trial>)

  /** What one run of a job leaves behind. */
  datatype Outcome = Outcome(returnCode: int, hasResult: bool, trials: seq<Trial>)

  datatype Job = Job(task: string, name: string)

  /** Job directories of a task before this invocation, newest name first, and the outcome of each launched job. */
  datatype World = World(dirs: string -> seq<JobDir>, outcome: Job -> Outcome)

  /** The settings that must not drift between invocations; `attempts` is `attempts_per_task`. */
  datatype Pinned = Pinned(
    runner: string, model: string, effort: string, tier: string, binary: string, binaryHash: string, auth: string,
    dataset: string, path: Option<string>, attempts: int, concurrent: int, timeout: real)

  datatype Arguments = Arguments(
    tasks: seq<string>, pinned: Pinned, continueOnFailure: bool, maxParallel: int)

  // ---------- adopting an earlier job ----------

  predicate Adoptable(d: JobDir, required: int) {
    d.hasResult && d.trials != [] && |NumericRewards(d.trials)| >= required
  }

  function AdoptedRecord(task: string, d: JobDir): Record {
    Record(task, d.name, Completed, None, Mean(d.trials), d.trials)
  }

  /** The record for the first adoptable directory, if there is one. */
  function FirstAdopted(task: string, dirs: seq<JobDir>, required: int): Option<Record> {
    if dirs == [] then None
    else if Adoptable(dirs[0], required) then Some(AdoptedRecord(task, dirs[0]))
    else FirstAdopted(task, dirs[1..], required)
  }

  lemma {:induction false} FirstAdoptedAt(task: string, dirs: seq<JobDir>, required: int, k: nat)
    requires k <= |dirs| && forall i :: 0 <= i < k ==> !Adoptable(dirs[i], required)
    ensures k == |dirs| ==> FirstAdopted(task, dirs, required) == None
    ensures k < |dirs| && Adoptable(dirs[k], required) ==>
              FirstAdopted(task, dirs, required) == Some(AdoptedRecord(task, dirs[k]))
  {
    if k > 0 {
      FirstAdoptedAt(task, dirs[1..], required, k - 1);
    }
  }

  /** The first directory with a result, some trials and enough numeric rewards is adopted under its own name. */
  lemma {:induction false} FirstAdoptedMeans(task: string, dirs: seq<JobDir>, required: int)
    ensures var qualifies := (d: JobDir) => d.hasResult && d.trials != [] && |NumericRewards(d.trials)| >= required;
      match FirstAdopted(task, dirs, required)
      case None => forall d :: d in dirs ==> !qualifies(d)
      case Some(r) =>
        exists k :: 0 <= k < |dirs| && qualifies(dirs[k]) && (forall i :: 0 <= i < k ==> !qualifies(dirs[i]))
          && r == Record(task, dirs[k].name, Completed, None, Mean(dirs[k].trials), dirs[k].trials)
  {
    hide NumericRewards, Mean;
    if dirs != [] && !Adoptable(dirs[0], required) {
      FirstAdoptedMeans(task, dirs[1..], required);
      if FirstAdopted(task, dirs, required).Some? {
        var k :| 0 <= k < |dirs[1..]| && Adoptable(dirs[1..][k], required)
                 && (forall i :: 0 <= i < k ==> !Adoptable(dirs[1..][i], required))
                 && FirstAdopted(task, dirs, required) == Some(AdoptedRecord(task, dirs[1..][k]));
        assert dirs[k + 1] == dirs[1..][k];
      }
    }
  }

  /** Whether the job adopted for a benchmark, if any, counts as completing it. */
  predicate AdoptionCompletes(task: string, dirs: seq<JobDir>, attempts: int) {
    var adopted := FirstAdopted(task, dirs, attempts);
    task != "" && adopted.Some? && adopted.value.mean.Some?
  }

  lemma {:induction false} AdoptionCompletesExactly(task: string, dirs: seq<JobDir>, attempts: int)
    ensures var adopted := FirstAdopted(task, dirs, attempts);
      adopted.Some? ==>
        && adopted.value.task == task
        && (IsComplete(adopted.value, Required(attempts)) <==> AdoptionCompletes(task, dirs, attempts))
        && (attempts >= 1 ==> adopted.value.mean.Some?)
  {
    if dirs != [] && !Adoptable(dirs[0], attempts) {
      AdoptionCompletesExactly(task, dirs[1..], attempts);
    }
  }

  /** For every directory at once, adopting one completes its benchmark task exactly under these settings. */
  lemma AdoptionCompletesIff(task: string, attempts: int)
    ensures (forall d :: Adoptable(d, attempts) ==> IsComplete(AdoptedRecord(task, d), Required(attempts)))
            <==> task != "" && attempts >= 1
  {
    if attempts < 1 {
      var d := JobDir("run-001", true, [Trial("t", NotANumber)]);
      assert d.trials[1..] == [];
      assert NumericRewards(d.trials) == [];
      assert Adoptable(d, attempts) && Mean(d.trials) == None;
    } else if task == "" {
      var d := JobDir("run-001", true, seq(attempts, i => Trial("t", Number(1.0))));
      AllNumeric(attempts);
      assert Adoptable(d, attempts);
    }
  }

  /** With zero attempts asked for, a job without any numeric reward is adopted, yet its task stays uncompleted. */
  lemma AdoptedWithoutRewards(task: string)
    ensures var d := JobDir("run-001", true, [Trial("t", NotANumber)]);
      Adoptable(d, 0) && task !in CompletedJobs(Upsert([], AdoptedRecord(task, d)), Required(0))
  {
    var d := JobDir("run-001", true, [Trial("t", NotANumber)]);
    assert d.trials[1..] == [];
    assert NumericRewards(d.trials) == [];
    assert [AdoptedRecord(task, d)][1..] == [];
  }

  lemma {:induction false} AllNumeric(n: nat)
    ensures |NumericRewards(seq(n, i => Trial("t", Number(1.0))))| == n
  {
    if n > 0 {
      AllNumeric(n - 1);
      assert seq(n, i => Trial("t", Number(1.0)))[1..] == seq(n - 1, i => Trial("t", Number(1.0)));
    }
  }

  // ---------- finalizing a job ----------

  /** The record `finalize_task_result` writes, and whether it counts as done. */
  function Finalized(task: string, job: string, o: Outcome, attempts: int): (bool, Record) {
    if o.hasResult && o.trials != [] then
      var xs := NumericRewards(o.trials);
      var r := Record(task, job, Completed, Some(o.returnCode), Mean(o.trials), o.trials);
      if xs != [] && |xs| >= attempts then (true, r)
      else (false, r.(status := if xs != [] then PartialReward else NoReward))
    else if o.returnCode != 0 || !o.hasResult then
      (false, Record(task, job, FailedToProduceResult, Some(o.returnCode), None, []))
    else
      (false, Record(task, job, MissingTrialResults, Some(o.returnCode), None, []))
  }

  /** The job left a result with a numeric reward for every attempt asked for, and at least one. */
  predicate FullResult(o: Outcome, attempts: int) {
    o.hasResult && |NumericRewards(o.trials)| >= Max(attempts, 1)
  }

  /** The status of each outcome, and what is recorded; the return code matters only without trials. */
  lemma FinalizedMeans(task: string, job: string, o: Outcome, attempts: int)
    ensures var (ok, r) := Finalized(task, job, o, attempts);
      var n := |NumericRewards(o.trials)|;
      && (ok <==> FullResult(o, attempts))
      && (r.status == Completed <==> FullResult(o, attempts))
      && (r.status == PartialReward <==> o.hasResult && 1 <= n < attempts)
      && (r.status == NoReward <==> o.hasResult && o.trials != [] && n == 0)
      && (r.status == FailedToProduceResult <==> !o.hasResult || (o.trials == [] && o.returnCode != 0))
      && (r.status == MissingTrialResults <==> o.hasResult && o.trials == [] && o.returnCode == 0)
      && r.task == task && r.job == job && r.returnCode == Some(o.returnCode)
      && (o.hasResult && o.trials != [] ==> r.trials == o.trials && r.mean == Mean(o.trials))
      && (!o.hasResult || o.trials == [] ==> r.trials == [] && r.mean == None)
  {
  }

  /** Later invocations count a record as complete exactly if success was reported and the name is not empty. */
  lemma FinalizedIffComplete(task: string, job: string, o: Outcome, attempts: int)
    ensures IsComplete(Finalized(task, job, o, attempts).1, Required(attempts))
            <==> Finalized(task, job, o, attempts).0 && task != ""
    ensures Finalized(task, job, o, attempts).1.task == task
  {
  }

  // ---------- what one invocation does ----------

  /** Whether a launched job counts as a success, and the record it leaves. */
  function Succeeds(w: World, j: Job, attempts: int): bool {
    Finalized(j.task, j.name, w.outcome(j), attempts).0
  }

  function NextJob(w: World, t: string): Job {
    Job(t, JobName(|w.dirs(t)| + 1))
  }

  /** Whether a launched job completes its benchmark in the eyes of later invocations. */
  predicate Completes(w: World, j: Job, attempts: int) {
    Succeeds(w, j, attempts) && j.task != ""
  }

  /** No earlier job is adopted for the benchmark, or one with a mean reward is. */
  predicate NoMeanlessAdoption(t: string, dirs: seq<JobDir>, attempts: int) {
    var adopted := FirstAdopted(t, dirs, attempts);
    adopted.None? || adopted.value.mean.Some?
  }

  function RecordOf(w: World, j: Job, attempts: int): Record {
    Finalized(j.task, j.name, w.outcome(j), attempts).1
  }

  function RecordsOf(w: World, jobs: seq<Job>, attempts: int): seq<Record> {
    seq(|jobs|, i requires 0 <= i < |jobs| => RecordOf(w, jobs[i], attempts))
  }

  function ExitCode(returnCode: int): int {
    if returnCode != 0 then returnCode else 1
  }

  ghost predicate DistinctTasks(jobs: seq<Job>) {
    forall i, j :: 0 <= i < j < |jobs| ==> jobs[i].task != jobs[j].task
  }

  ghost function TasksOf(jobs: seq<Job>): set<string> {
    set j | j in jobs :: j.task
  }

  /** The names asked for, first occurrences only. */
  function Deduped(tasks: seq<string>): seq<string> {
    if tasks == [] then [] else
    var front, t := Deduped(tasks[..|tasks| - 1]), tasks[|tasks| - 1];
    if t in front then front else front + [t]
  }

  /** The jobs still to be run for `tasks` when `records` are on file: neither completed nor adoptable. */
  function Pending(w: World, tasks: seq<string>, records: seq<Record>, attempts: int): seq<Job> {
    if tasks == [] then [] else
    var t := tasks[|tasks| - 1];
    Pending(w, tasks[..|tasks| - 1], records, attempts)
    + if t !in CompletedJobs(records, Required(attempts)) && FirstAdopted(t, w.dirs(t), attempts) == None
      then [NextJob(w, t)] else []
  }

  /** The records of the jobs adopted for `tasks`. */
  function Adoptions(w: World, tasks: seq<string>, records: seq<Record>, attempts: int): seq<Record> {
    if tasks == [] then [] else
    var t := tasks[|tasks| - 1];
    var adopted := FirstAdopted(t, w.dirs(t), attempts);
    Adoptions(w, tasks[..|tasks| - 1], records, attempts)
    + if t !in CompletedJobs(records, Required(attempts)) && adopted.Some? then [adopted.value] else []
  }

  /** The jobs up to and including the first that fails. */
  function UntilFailure(w: World, jobs: seq<Job>, attempts: int): seq<Job> {
    if jobs == [] then []
    else if Succeeds(w, jobs[0], attempts) then [jobs[0]] + UntilFailure(w, jobs[1..], attempts)
    else [jobs[0]]
  }

  /** The part of the manifest that later invocations read. */
  datatype Manifest = Manifest(pinned: Option<Pinned>, tasksRun: seq<Record>)

  /** No task is given, or the settings differ from the pinned ones. */
  predicate Refused(args: Arguments, before: Manifest) {
    args.tasks == [] || (before.pinned.Some? && before.pinned.value != args.pinned)
  }

  /** The jobs that are launched, in this order. */
  function Launches(w: World, args: Arguments, records: seq<Record>): seq<Job> {
    var pending := Pending(w, Deduped(args.tasks), records, args.pinned.attempts);
    if args.continueOnFailure || args.maxParallel > 1 then pending
    else UntilFailure(w, pending, args.pinned.attempts)
  }

  /** `order` is an order in which the launched jobs may finish. */
  ghost predicate Finishes(args: Arguments, launched: seq<Job>, order: seq<Job>) {
    && NoDuplicates(order) && (forall j :: j in order <==> j in launched)
    && (args.maxParallel <= 1 ==> order == launched)
  }

  /** Everything written: first the adopted jobs, then the launched ones as they finish. */
  function Writes(w: World, args: Arguments, records: seq<Record>, order: seq<Job>): seq<Record> {
    Adoptions(w, Deduped(args.tasks), records, args.pinned.attempts) + RecordsOf(w, order, args.pinned.attempts)
  }

  predicate AllSucceed(w: World, jobs: seq<Job>, attempts: int) {
    forall j :: j in jobs ==> Succeeds(w, j, attempts)
  }

  /** Success, completion and stopping in terms of what the jobs leave behind. */
  lemma OutcomesDecide(w: World, launched: seq<Job>, attempts: int)
    ensures forall j :: Succeeds(w, j, attempts) <==> FullResult(w.outcome(j), attempts)
    ensures forall j :: Completes(w, j, attempts) <==> j.task != "" && FullResult(w.outcome(j), attempts)
    ensures StopsAtFailure(w, launched, attempts) ==>
              && launched != [] && !FullResult(w.outcome(launched[|launched| - 1]), attempts)
              && forall j :: j in launched[..|launched| - 1] ==> FullResult(w.outcome(j), attempts)
  {
    hide Finalized, FullResult;
    forall j
      ensures Succeeds(w, j, attempts) <==> FullResult(w.outcome(j), attempts)
    {
      FinalizedMeans(j.task, j.name, w.outcome(j), attempts);
    }
  }

  /** The last job fails, and no other. */
  predicate StopsAtFailure(w: World, jobs: seq<Job>, attempts: int) {
    jobs != [] && !Succeeds(w, jobs[|jobs| - 1], attempts) && AllSucceed(w, jobs[..|jobs| - 1], attempts)
  }

  function Code(w: World, args: Arguments, launched: seq<Job>): int {
    if args.continueOnFailure || AllSucceed(w, launched, args.pinned.attempts) then 0
    else if args.maxParallel > 1 then 1
    else ExitCode(w.outcome(launched[|launched| - 1]).returnCode)
  }

  /** All that one invocation does, but for the order in which parallel jobs finish. */
  ghost predicate Invocation(
      w: World, args: Arguments, before: Manifest, after: Manifest, code: int, launched: seq<Job>, order: seq<Job>) {
    if Refused(args, before) then
      after == before && code == 1 && launched == [] && order == []
    else
      && launched == Launches(w, args, before.tasksRun)
      && Finishes(args, launched, order)
      && code == Code(w, args, launched)
      && after == Manifest(Some(args.pinned), UpsertAll(before.tasksRun, Writes(w, args, before.tasksRun, order)))
  }

  lemma NothingDeduped()
    ensures Deduped([]) == []
  {
  }

  lemma DedupedNext(tasks: seq<string>, k: nat)
    requires k < |tasks|
    ensures Deduped(tasks[..k + 1]) ==
            Deduped(tasks[..k]) + if tasks[k] in Deduped(tasks[..k]) then [] else [tasks[k]]
  {
    assert tasks[..k + 1][..k] == tasks[..k];
  }

  lemma {:induction false} DedupedDistinct(tasks: seq<string>)
    ensures NoDuplicates(Deduped(tasks)) && forall t :: t in Deduped(tasks) <==> t in tasks
  {
    if tasks != [] {
      DedupedDistinct(tasks[..|tasks| - 1]);
      assert tasks == tasks[..|tasks| - 1] + [tasks[|tasks| - 1]];
    }
  }

  lemma NothingPrepared(w: World, records: seq<Record>, attempts: int)
    ensures Pending(w, [], records, attempts) == [] && Adoptions(w, [], records, attempts) == []
  {
  }

  lemma PreparedNext(w: World, tasks: seq<string>, k: nat, records: seq<Record>, attempts: int)
    requires k < |tasks|
    ensures var t := tasks[k];
      var open := t !in CompletedJobs(records, Required(attempts));
      var adopted := FirstAdopted(t, w.dirs(t), attempts);
      && Pending(w, tasks[..k + 1], records, attempts)
         == Pending(w, tasks[..k], records, attempts) + (if open && adopted == None then [NextJob(w, t)] else [])
      && Adoptions(w, tasks[..k + 1], records, attempts)
         == Adoptions(w, tasks[..k], records, attempts) + (if open && adopted.Some? then [adopted.value] else [])
  {
    hide CompletedJobs, FirstAdopted, NextJob;
    assert tasks[..k + 1][..k] == tasks[..k];
  }

  lemma {:induction false} UntilFailureAt(w: World, jobs: seq<Job>, attempts: int, k: nat)
    requires k <= |jobs| && forall i :: 0 <= i < k ==> Succeeds(w, jobs[i], attempts)
    ensures k == |jobs| ==> UntilFailure(w, jobs, attempts) == jobs
    ensures k < |jobs| && !Succeeds(w, jobs[k], attempts) ==> UntilFailure(w, jobs, attempts) == jobs[..k + 1]
  {
    hide Succeeds;
    if k > 0 {
      UntilFailureAt(w, jobs[1..], attempts, k - 1);
    }
  }

  // ---------- what an invocation means for the completed benchmarks ----------

  ghost predicate DistinctRecords(log: seq<Record>) {
    forall i, j :: 0 <= i < j < |log| ==> log[i].task != log[j].task
  }

  ghost predicate Fresh(records: seq<Record>, log: seq<Record>, required: int) {
    DistinctRecords(log) && forall r :: r in log ==> r.task !in CompletedJobs(records, required)
  }

  lemma FreshRest(records: seq<Record>, log: seq<Record>, required: int)
    requires log != [] && Fresh(records, log, required)
    ensures Fresh(Upsert(records, log[0]), log[1..], required)
    ensures log[0].task !in CompletedJobs(records, required) && forall r :: r in log[1..] ==> r.task != log[0].task
  {
    hide CompletedJobs, Upsert;
    assert log[0] in log;
    forall r | r in log[1..]
      ensures r.task != log[0].task && r.task !in CompletedJobs(Upsert(records, log[0]), required)
    {
      assert r in log;
      UpsertOtherTask(records, log[0], required, r.task);
    }
  }

  /** Records for different benchmarks, none completed so far: each decides about its own and no other. */
  lemma {:induction false} FreshLog(records: seq<Record>, log: seq<Record>, required: int, t: string)
    requires Fresh(records, log, required)
    ensures Respectful(records, log, required)
    ensures t in CompletedJobs(UpsertAll(records, log), required)
            <==> t in CompletedJobs(records, required) || exists r :: r in log && r.task == t && IsComplete(r, required)
    decreases |log|
  {
    hide CompletedJobs, Upsert, IsComplete, Fresh;
    if log != [] {
      var r, rest, next := log[0], log[1..], Upsert(records, log[0]);
      FreshRest(records, log, required);
      FreshLog(next, rest, required, t);
      assert log == [r] + rest;
      if t == r.task {
        UpsertDone(records, r, required);
      } else {
        UpsertOtherTask(records, r, required, t);
      }
    }
  }

  predicate Open(records: seq<Record>, t: string, attempts: int) {
    t !in CompletedJobs(records, Required(attempts))
  }

  lemma {:induction false} PendingMembers(w: World, tasks: seq<string>, records: seq<Record>, attempts: int)
    requires NoDuplicates(tasks)
    ensures DistinctTasks(Pending(w, tasks, records, attempts))
    ensures forall j :: j in Pending(w, tasks, records, attempts) <==>
              && j.task in tasks && j == NextJob(w, j.task)
              && Open(records, j.task, attempts) && FirstAdopted(j.task, w.dirs(j.task), attempts) == None
  {
    hide CompletedJobs, FirstAdopted, JobName;
    if tasks != [] {
      var front, t := tasks[..|tasks| - 1], tasks[|tasks| - 1];
      PendingMembers(w, front, records, attempts);
      assert tasks == front + [t];
    }
  }

  /** In the order of the names as first asked for. */
  ghost predicate InOrder(tasks: seq<string>, jobs: seq<Job>) {
    forall i, j :: 0 <= i < j < |jobs| ==> FirstIndex(tasks, jobs[i].task) < FirstIndex(tasks, jobs[j].task)
  }

  ghost function FirstIndex(tasks: seq<string>, t: string): nat {
    if tasks == [] || tasks[0] == t then 0 else 1 + FirstIndex(tasks[1..], t)
  }

  lemma {:induction false} FirstIndexHere(tasks: seq<string>, k: nat)
    requires k < |tasks| && tasks[k] !in tasks[..k]
    ensures FirstIndex(tasks, tasks[k]) == k
  {
    if k > 0 {
      assert tasks[0] in tasks[..k];
      assert forall t :: t in tasks[1..][..k - 1] ==> t in tasks[..k] by {
        assert tasks[1..][..k - 1] == tasks[1..k] && tasks[..k] == [tasks[0]] + tasks[1..k];
      }
      FirstIndexHere(tasks[1..], k - 1);
    }
  }

  lemma {:induction false} FirstIndexInFront(tasks: seq<string>, k: nat, t: string)
    requires k <= |tasks| && t in tasks[..k]
    ensures FirstIndex(tasks, t) < k && FirstIndex(tasks[..k], t) == FirstIndex(tasks, t)
  {
    if tasks[0] != t {
      assert tasks[..k] == [tasks[0]] + tasks[1..][..k - 1];
      FirstIndexInFront(tasks[1..], k - 1, t);
      assert tasks[..k][1..] == tasks[1..][..k - 1];
    }
  }

  lemma {:induction false} DedupedOrder(tasks: seq<string>)
    ensures forall t :: t in Deduped(tasks) <==> t in tasks
    ensures forall i, j :: 0 <= i < j < |Deduped(tasks)| ==>
              FirstIndex(tasks, Deduped(tasks)[i]) < FirstIndex(tasks, Deduped(tasks)[j])
  {
    DedupedDistinct(tasks);
    if tasks != [] {
      var front, t := tasks[..|tasks| - 1], tasks[|tasks| - 1];
      DedupedOrder(front);
      forall i, j | 0 <= i < j < |Deduped(tasks)|
        ensures FirstIndex(tasks, Deduped(tasks)[i]) < FirstIndex(tasks, Deduped(tasks)[j])
      {
        assert Deduped(front)[i] in front;
        FirstIndexInFront(tasks, |front|, Deduped(front)[i]);
        if j < |Deduped(front)| {
          assert Deduped(front)[j] in front;
          FirstIndexInFront(tasks, |front|, Deduped(front)[j]);
        } else {
          FirstIndexHere(tasks, |front|);
        }
      }
    }
  }

  /** A prefix of the names gives a prefix of the pending jobs, so these come in the order of the names. */
  lemma {:induction false} PendingInOrder(
      w: World, tasks: seq<string>, all: seq<string>, records: seq<Record>, attempts: int)
    requires forall i, j :: 0 <= i < j < |tasks| ==> FirstIndex(all, tasks[i]) < FirstIndex(all, tasks[j])
    ensures InOrder(all, Pending(w, tasks, records, attempts))
    ensures forall j :: j in Pending(w, tasks, records, attempts) ==> j.task in tasks
  {
    hide CompletedJobs, FirstAdopted, JobName, FirstIndex;
    if tasks != [] {
      var front, t := tasks[..|tasks| - 1], tasks[|tasks| - 1];
      PendingInOrder(w, front, all, records, attempts);
      var earlier := Pending(w, front, records, attempts);
      forall j | j in earlier
        ensures j.task in tasks && FirstIndex(all, j.task) < FirstIndex(all, t)
      {
        var k :| 0 <= k < |front| && front[k] == j.task;
        assert tasks[k] == j.task;
      }
      forall i | 0 <= i < |earlier|
        ensures FirstIndex(all, earlier[i].task) < FirstIndex(all, t)
      {
        assert earlier[i] in earlier;
      }
    }
  }

  lemma LaunchedInOrder(w: World, args: Arguments, records: seq<Record>)
    ensures InOrder(args.tasks, Launches(w, args, records))
  {
    hide FirstIndex, Pending, Deduped, UntilFailure;
    DedupedOrder(args.tasks);
    PendingInOrder(w, Deduped(args.tasks), args.tasks, records, args.pinned.attempts);
    UntilFailureFacts(w, Pending(w, Deduped(args.tasks), records, args.pinned.attempts), args.pinned.attempts);
  }

  lemma {:induction false} AdoptionMembers(w: World, tasks: seq<string>, records: seq<Record>, attempts: int)
    requires NoDuplicates(tasks)
    ensures DistinctRecords(Adoptions(w, tasks, records, attempts))
    ensures forall r :: r in Adoptions(w, tasks, records, attempts) <==>
              && r.task in tasks && Open(records, r.task, attempts)
              && FirstAdopted(r.task, w.dirs(r.task), attempts) == Some(r)
  {
    hide CompletedJobs, FirstAdopted, IsComplete, AdoptionCompletes;
    if tasks != [] {
      var front, t := tasks[..|tasks| - 1], tasks[|tasks| - 1];
      AdoptionMembers(w, front, records, attempts);
      AdoptionCompletesExactly(t, w.dirs(t), attempts);
      assert tasks == front + [t];
    }
  }

  lemma NoJobFails(w: World, attempts: int)
    ensures AllSucceed(w, [], attempts)
  {
  }

  lemma OneJob(w: World, j: Job, attempts: int)
    ensures AllSucceed(w, [j], attempts) <==> Succeeds(w, j, attempts)
    ensures StopsAtFailure(w, [j], attempts) <==> !Succeeds(w, j, attempts)
  {
    hide Succeeds;
    assert [j][..0] == [] && j in [j];
  }

  lemma AfterSuccess(w: World, j: Job, jobs: seq<Job>, attempts: int)
    requires Succeeds(w, j, attempts)
    ensures AllSucceed(w, [j] + jobs, attempts) <==> AllSucceed(w, jobs, attempts)
    ensures StopsAtFailure(w, jobs, attempts) ==> StopsAtFailure(w, [j] + jobs, attempts)
  {
    hide Succeeds;
    forall x | x in jobs
      ensures x in [j] + jobs
    {
    }
    if jobs != [] {
      assert ([j] + jobs)[..|jobs|] == [j] + jobs[..|jobs| - 1];
    }
  }

  lemma {:induction false} UntilFailureFacts(w: World, jobs: seq<Job>, attempts: int)
    ensures var first := UntilFailure(w, jobs, attempts);
      && first <= jobs
      && (AllSucceed(w, first, attempts) ==> first == jobs)
      && (!AllSucceed(w, first, attempts) ==> StopsAtFailure(w, first, attempts))
  {
    hide Succeeds, AllSucceed, StopsAtFailure;
    NoJobFails(w, attempts);
    if jobs != [] {
      OneJob(w, jobs[0], attempts);
      if Succeeds(w, jobs[0], attempts) {
        UntilFailureFacts(w, jobs[1..], attempts);
        AfterSuccess(w, jobs[0], UntilFailure(w, jobs[1..], attempts), attempts);
        assert [jobs[0]] + jobs[1..] == jobs;
      }
    }
  }

  /** The launched jobs: every pending one if failures are tolerated or jobs run in parallel. */
  lemma LaunchedFacts(w: World, args: Arguments, records: seq<Record>)
    ensures var a := args.pinned.attempts;
      var launched := Launches(w, args, records);
      && DistinctTasks(launched)
      && launched <= Pending(w, Deduped(args.tasks), records, a)
      && (forall j :: j in launched ==>
            && j.task in args.tasks && j == NextJob(w, j.task)
            && Open(records, j.task, a) && FirstAdopted(j.task, w.dirs(j.task), a) == None)
      && (args.continueOnFailure || args.maxParallel > 1 || AllSucceed(w, launched, a) ==>
            forall t :: t in args.tasks && Open(records, t, a) && FirstAdopted(t, w.dirs(t), a) == None ==>
              NextJob(w, t) in launched)
  {
    hide Pending, Deduped, Open, FirstAdopted, UntilFailure, AllSucceed, JobName;
    var a := args.pinned.attempts;
    DedupedDistinct(args.tasks);
    PendingMembers(w, Deduped(args.tasks), records, a);
    UntilFailureFacts(w, Pending(w, Deduped(args.tasks), records, a), a);
  }

  lemma RecordsFacts(w: World, jobs: seq<Job>, attempts: int)
    ensures |RecordsOf(w, jobs, attempts)| == |jobs|
    ensures forall i :: 0 <= i < |jobs| ==>
              var r := RecordsOf(w, jobs, attempts)[i];
              r == RecordOf(w, jobs[i], attempts) && r.task == jobs[i].task
              && (IsComplete(r, Required(attempts)) <==> Completes(w, jobs[i], attempts))
  {
    hide Finalized, IsComplete, Required;
    forall i | 0 <= i < |jobs|
      ensures RecordOf(w, jobs[i], attempts).task == jobs[i].task
      ensures IsComplete(RecordOf(w, jobs[i], attempts), Required(attempts)) <==> Completes(w, jobs[i], attempts)
    {
      FinalizedIffComplete(jobs[i].task, jobs[i].name, w.outcome(jobs[i]), attempts);
    }
  }

  /** What an invocation writes concerns different benchmarks, none completed before. */
  lemma WritesAreFresh(w: World, args: Arguments, records: seq<Record>, order: seq<Job>)
    requires Finishes(args, Launches(w, args, records), order)
    ensures Fresh(records, Writes(w, args, records, order), Required(args.pinned.attempts))
  {
    hide CompletedJobs, FirstAdopted, Adoptions, RecordsOf, Launches, Deduped, IsComplete, Completes, JobName;
    var a := args.pinned.attempts;
    var adopted := Adoptions(w, Deduped(args.tasks), records, a);
    DedupedDistinct(args.tasks);
    AdoptionMembers(w, Deduped(args.tasks), records, a);
    LaunchedFacts(w, args, records);
    RecordsFacts(w, order, a);
    var run := RecordsOf(w, order, a);
    forall i | 0 <= i < |run|
      ensures order[i] in order && Open(records, run[i].task, a)
      ensures FirstAdopted(run[i].task, w.dirs(run[i].task), a) == None
    {
      assert order[i] in order;
    }
    FreshJoin(records, adopted, run, a, order);
  }

  lemma FreshJoin(
      records: seq<Record>, adopted: seq<Record>, run: seq<Record>, attempts: int, order: seq<Job>)
    requires DistinctRecords(adopted) && forall r :: r in adopted ==> Open(records, r.task, attempts)
    requires |run| == |order| && DistinctRecords(run)
    requires forall i :: 0 <= i < |run| ==> Open(records, run[i].task, attempts)
    requires forall r, i :: r in adopted && 0 <= i < |run| ==> r.task != run[i].task
    ensures Fresh(records, adopted + run, Required(attempts))
  {
    hide CompletedJobs;
  }

  /** A benchmark is completed by the record of its adopted job or by that of its launched one. */
  lemma CompletedByWrites(w: World, args: Arguments, records: seq<Record>, order: seq<Job>, t: string)
    requires Finishes(args, Launches(w, args, records), order)
    ensures var a := args.pinned.attempts;
      (exists r :: r in Writes(w, args, records, order) && r.task == t && IsComplete(r, Required(a)))
      <==> || (t in args.tasks && Open(records, t, a) && AdoptionCompletes(t, w.dirs(t), a))
           || (exists j :: j in Launches(w, args, records) && j.task == t && Completes(w, j, a))
  {
    hide CompletedJobs, FirstAdopted, Adoptions, RecordsOf, Launches, Deduped, IsComplete, Completes, Open;
    var a := args.pinned.attempts;
    var adopted, run := Adoptions(w, Deduped(args.tasks), records, a), RecordsOf(w, order, a);
    DedupedDistinct(args.tasks);
    AdoptionMembers(w, Deduped(args.tasks), records, a);
    AdoptionCompletesExactly(t, w.dirs(t), a);
    RecordsFacts(w, order, a);
    if j :| j in Launches(w, args, records) && j.task == t && Completes(w, j, a) {
      assert j in order;
      var i :| 0 <= i < |order| && order[i] == j;
      assert run[i] in adopted + run;
    }
  }

  /** Everything an invocation that is not refused does to the completed benchmarks. */
  lemma InvocationMeans(
      w: World, args: Arguments, before: Manifest, after: Manifest, code: int, launched: seq<Job>, order: seq<Job>)
    requires Invocation(w, args, before, after, code, launched, order) && !Refused(args, before)
    ensures Respectful(
              before.tasksRun, Writes(w, args, before.tasksRun, order), Required(args.pinned.attempts))
    ensures forall j :: j in launched ==> j.task in args.tasks && Open(before.tasksRun, j.task, args.pinned.attempts)
    ensures forall t ::
              (t in CompletedJobs(after.tasksRun, Required(args.pinned.attempts))
               <==> || t in CompletedJobs(before.tasksRun, Required(args.pinned.attempts))
                    || (t in args.tasks && AdoptionCompletes(t, w.dirs(t), args.pinned.attempts))
                    || exists j :: j in launched && j.task == t && Completes(w, j, args.pinned.attempts))
    ensures args.continueOnFailure || args.maxParallel > 1 || AllSucceed(w, launched, args.pinned.attempts) ==>
              forall t :: t in args.tasks ==>
                (NextJob(w, t) in launched
                 <==> && Open(before.tasksRun, t, args.pinned.attempts)
                      && FirstAdopted(t, w.dirs(t), args.pinned.attempts) == None)
    ensures forall j :: j in launched ==> j == NextJob(w, j.task)
  {
    hide CompletedJobs, IsComplete, AdoptionCompletes, Completes, Writes, Launches, FirstAdopted, AllSucceed, JobName;
    hide Respectful, UpsertAll, Fresh;
    var a, records := args.pinned.attempts, before.tasksRun;
    var log := Writes(w, args, records, order);
    WritesAreFresh(w, args, records, order);
    LaunchedFacts(w, args, records);
    FreshLog(records, log, Required(a), "");
    forall t
      ensures t in CompletedJobs(after.tasksRun, Required(a))
              <==> || t in CompletedJobs(records, Required(a))
                   || (t in args.tasks && AdoptionCompletes(t, w.dirs(t), a))
                   || exists j :: j in launched && j.task == t && Completes(w, j, a)
    {
      FreshLog(records, log, Required(a), t);
      CompletedByWrites(w, args, records, order, t);
    }
  }

  /** What has been completed once every pending job succeeded. */
  lemma SuccessMeansComplete(
      w: World, tasks: seq<string>, attempts: int, before: seq<Record>, after: seq<Record>, launched: seq<Job>)
    requires forall t :: t in tasks ==>
               (t in CompletedJobs(after, Required(attempts))
                <==> || t in CompletedJobs(before, Required(attempts))
                     || AdoptionCompletes(t, w.dirs(t), attempts)
                     || exists j :: j in launched && j.task == t && Completes(w, j, attempts))
    requires forall t :: t in tasks ==>
               (NextJob(w, t) in launched <==>
                  t !in CompletedJobs(before, Required(attempts)) && FirstAdopted(t, w.dirs(t), attempts) == None)
    requires forall j :: j in launched ==> j == NextJob(w, j.task) && Succeeds(w, j, attempts)
    ensures forall t :: t in tasks ==>
              (t in CompletedJobs(after, Required(attempts))
               <==> t != "" && (t in CompletedJobs(before, Required(attempts))
                                || NoMeanlessAdoption(t, w.dirs(t), attempts)))
    ensures attempts >= 1 && "" !in tasks ==> forall t :: t in tasks ==> t in CompletedJobs(after, Required(attempts))
  {
    hide CompletedJobs, FirstAdopted, Succeeds, JobName;
    forall t | t in tasks
      ensures t in CompletedJobs(after, Required(attempts))
              <==> t != "" && (t in CompletedJobs(before, Required(attempts))
                               || NoMeanlessAdoption(t, w.dirs(t), attempts))
      ensures attempts >= 1 && t != "" ==> t in CompletedJobs(after, Required(attempts))
    {
      AdoptionCompletesExactly(t, w.dirs(t), attempts);
      if t in CompletedJobs(before, Required(attempts)) {
        CompletedAreComplete(before, Required(attempts), t);
      } else if FirstAdopted(t, w.dirs(t), attempts) == None {
        assert NextJob(w, t) in launched;
        assert Completes(w, NextJob(w, t), attempts) <==> t != "";
      }
    }
  }

  // ---------- the campaign directory ----------

  /** `f"run-{n:03d}"`. */
  function JobName(n: nat): string {
    "run-" + (if n < 10 then "00" else if n < 100 then "0" else "") + Digits(n)
  }

  /** A job name is `run-` and its number in at least three digits, so different numbers give different names. */
  lemma JobNameHoldsNumber(n: nat)
    ensures |JobName(n)| >= 7 && (|JobName(n)| == 7 <==> n < 1000)
    ensures JobName(n)[..4] == "run-" && NumberIn(JobName(n)[4..]) == n
    ensures n >= 100 ==> JobName(n)[4] != '0'
  {
    hide NumberIn, Digits;
    DigitsHoldNumber(n);
    DigitsLength(n);
    var d := Digits(n);
    LeadingZero(d);
    LeadingZero("0" + d);
    assert "0" + ("0" + d) == "00" + d;
    assert JobName(n)[..4] == "run-";
    if n < 10 {
      assert JobName(n)[4..] == "00" + d;
    } else if n < 100 {
      assert JobName(n)[4..] == "0" + d;
    } else {
      assert JobName(n)[4..] == d;
    }
  }

  /** When the earlier jobs of a benchmark are the numbered ones, the next job gets a name of its own. */
  lemma NextJobIsNew(w: World, t: string, k: nat)
    requires 1 <= k <= |w.dirs(t)|
    ensures NextJob(w, t).name != JobName(k) && NextJob(w, t).name == JobName(|w.dirs(t)| + 1)
  {
    hide JobName, NumberIn;
    JobNameHoldsNumber(k);
    JobNameHoldsNumber(|w.dirs(t)| + 1);
  }

  /** What the campaign keeps on disk: `campaign.json` and `results.jsonl`. */
  class CampaignDir {
    var pinned: Option<Pinned>
    var tasksRun: seq<Record>
    var results: Option<seq<Record>>

    constructor ()
      ensures pinned == None && tasksRun == [] && results == None
    {
      pinned, tasksRun, results := None, [], None;
    }

    /** Keys are unique and the exported results, once written, equal the manifest's. */
    ghost predicate Valid()
      reads this
    {
      UniqueKeys(tasksRun) && results == if tasksRun == [] then None else Some(tasksRun)
    }

    ghost function Value(): Manifest
      reads this
    {
      Manifest(pinned, tasksRun)
    }

    /** The state after writing `log` to `before`, never for a task that was completed by then. */
    ghost predicate Advanced(before: seq<Record>, log: seq<Record>, attempts: int)
      reads this
    {
      Respectful(before, log, Required(attempts)) && tasksRun == UpsertAll(before, log)
    }

    method EnsureManifest(p: Pinned) returns (ok: bool)
      requires Valid() && (pinned == None ==> tasksRun == [])
      modifies this
      ensures Valid() && tasksRun == old(tasksRun) && results == old(results)
      ensures ok <==> old(pinned) == None || old(pinned) == Some(p)
      ensures pinned == if ok then Some(p) else old(pinned)
    {
      if pinned == None {
        pinned := Some(p);
        ok := true;
      } else {
        ok := pinned.value == p;
      }
    }

    method AppendResult(r: Record)
      requires Valid()
      modifies this
      ensures Valid() && tasksRun == Upsert(old(tasksRun), r) && pinned == old(pinned)
    {
      var existing := tasksRun;
      UpsertKeepsKeysUnique(existing, r);
      var k := 0;
      while k < |existing|
        invariant 0 <= k <= |existing| && Valid() && tasksRun == existing && pinned == old(pinned)
        invariant forall i :: 0 <= i < k ==> !SameKey(existing[i], r)
      {
        if SameKey(existing[k], r) {
          UpsertAt(existing, r, k);
          if existing[k] == r {
            return;
          }
          existing := existing[k := r];
          tasksRun := existing;
          results := Some(existing);
          return;
        }
        k := k + 1;
      }
      UpsertNew(existing, r);
      tasksRun := existing + [r];
      results := Some(existing + [r]);
    }

    method CompletedRecordedJobs(attempts: int) returns (out: map<string, Record>)
      ensures out == CompletedJobs(tasksRun, Required(attempts))
      ensures forall t :: t in out <==>
                exists r :: r in tasksRun && CountsFor(r, t, if attempts == 0 then 1 else attempts)
    {
      hide IsComplete, CompletedJobs, CountsFor;
      forall t
        ensures t in CompletedJobs(tasksRun, Required(attempts))
                <==> exists r :: r in tasksRun && CountsFor(r, t, if attempts == 0 then 1 else attempts)
      {
        CompletedMeans(tasksRun, Required(attempts), t);
      }
      var required := Required(attempts);
      out := map[];
      CompletedEnds(tasksRun, required);
      for k := 0 to |tasksRun|
        invariant out + CompletedJobs(tasksRun[k..], required) == CompletedJobs(tasksRun, required)
      {
        CompletedStep(tasksRun, k, required);
        var item := tasksRun[k];
        if IsComplete(item, required) {
          out := out[item.task := item];
        }
      }
    }

    method AdoptExistingJob(task: string, dirs: seq<JobDir>, attempts: int) returns (adopted: Option<Record>)
      requires Valid()
      modifies this
      ensures Valid() && pinned == old(pinned)
      ensures adopted == FirstAdopted(task, dirs, attempts)
      ensures tasksRun == if adopted.Some? then Upsert(old(tasksRun), adopted.value) else old(tasksRun)
    {
      hide FirstAdopted;
      for k := 0 to |dirs|
        invariant Valid() && tasksRun == old(tasksRun) && pinned == old(pinned)
        invariant forall i :: 0 <= i < k ==> !Adoptable(dirs[i], attempts)
      {
        var d := dirs[k];
        if !d.hasResult {
          continue;
        }
        if d.trials == [] {
          continue;
        }
        if |NumericRewards(d.trials)| < attempts {
          continue;
        }
        FirstAdoptedAt(task, dirs, attempts, k);
        var record := AdoptedRecord(task, d);
        AppendResult(record);
        return Some(record);
      }
      FirstAdoptedAt(task, dirs, attempts, |dirs|);
      adopted := None;
    }

    /** The final `raise AssertionError("unreachable")` is proved unreachable. */
    method FinalizeTaskResult(task: string, job: string, o: Outcome, attempts: int) returns (ok: bool, record: Record)
      requires Valid()
      modifies this
      ensures Valid() && pinned == old(pinned)
      ensures (ok, record) == Finalized(task, job, o, attempts) && tasksRun == Upsert(old(tasksRun), record)
    {
      if o.hasResult && o.trials != [] {
        var numeric := NumericRewards(o.trials);
        record := Record(task, job, Completed, Some(o.returnCode), Mean(o.trials), o.trials);
        if record.mean.Some? && |numeric| >= attempts {
          AppendResult(record);
          return true, record;
        }
        record := record.(status := if numeric != [] then PartialReward else NoReward);
        AppendResult(record);
        return false, record;
      }
      if o.returnCode != 0 || !o.hasResult {
        record := Record(task, job, FailedToProduceResult, Some(o.returnCode), None, []);
        AppendResult(record);
        return false, record;
      }
      if o.trials == [] {
        record := Record(task, job, MissingTrialResults, Some(o.returnCode), None, []);
        AppendResult(record);
        return false, record;
      }
      assert false;
      ok, record := false, Record("", "", NoReward, None, None, []);
    }

    ghost predicate Done(t: string, attempts: int)
      reads this
    {
      t in CompletedJobs(tasksRun, Required(attempts))
    }

    /** Skips a completed task, adopts an earlier job if one qualifies, and otherwise names the next job. */
    method PrepareTask(task: string, dirs: seq<JobDir>, attempts: int)
        returns (job: Option<Job>, ghost log: seq<Record>)
      requires Valid()
      modifies this
      ensures Valid() && pinned == old(pinned)
      ensures Advanced(old(tasksRun), log, attempts) && forall r :: r in log ==> r.task == task
      ensures old(Done(task, attempts)) ==> job == None && log == []
      ensures !old(Done(task, attempts)) ==>
                match FirstAdopted(task, dirs, attempts)
                case Some(r) => job == None && log == [r]
                case None => job == Some(Job(task, JobName(|dirs| + 1))) && log == []
      ensures job.Some? ==> !Done(task, attempts)
      ensures Done(task, attempts) <==> old(Done(task, attempts)) || AdoptionCompletes(task, dirs, attempts)
    {
      hide CompletedJobs, Upsert, FirstAdopted, UniqueKeys, IsComplete;
      log := [];
      var recorded := CompletedRecordedJobs(attempts);
      if task in recorded {
        return None, [];
      }
      var adopted := AdoptExistingJob(task, dirs, attempts);
      if adopted.Some? {
        log := [adopted.value];
        AdoptionCompletesExactly(task, dirs, attempts);
        OneUpsert(old(tasksRun), adopted.value, Required(attempts), task);
        UpsertDone(old(tasksRun), adopted.value, Required(attempts));
        return None, log;
      }
      job := Some(Job(task, JobName(|dirs| + 1)));
    }

    /** Runs one job and records what came of it. */
    method RunJob(w: World, job: Job, attempts: int) returns (ok: bool, returnCode: int, ghost record: Record)
      requires Valid() && !Done(job.task, attempts)
      modifies this
      ensures Valid() && pinned == old(pinned) && record.task == job.task
      ensures (ok, record) == Finalized(job.task, job.name, w.outcome(job), attempts)
      ensures returnCode == w.outcome(job).returnCode
      ensures Advanced(old(tasksRun), [record], attempts)
      ensures Done(job.task, attempts) <==> Completes(w, job, attempts)
    {
      hide CompletedJobs, Upsert, UniqueKeys, Finalized, IsComplete;
      var o := w.outcome(job);
      returnCode := o.returnCode;
      ok, record := FinalizeTaskResult(job.task, job.name, o, attempts);
      FinalizedIffComplete(job.task, job.name, o, attempts);
      OneUpsert(old(tasksRun), record, Required(attempts), job.task);
      UpsertDone(old(tasksRun), record, Required(attempts));
    }

    /** Prepares every task in order; nothing is launched yet. */
    method PrepareAll(w: World, tasks: seq<string>, attempts: int) returns (pending: seq<Job>, ghost log: seq<Record>)
      requires Valid() && NoDuplicates(tasks)
      modifies this
      ensures Valid() && pinned == old(pinned) && Advanced(old(tasksRun), log, attempts)
      ensures DistinctTasks(pending) && forall j :: j in pending ==> j.task in tasks && !Done(j.task, attempts)
      ensures forall j :: j in pending ==> j == NextJob(w, j.task)
      ensures pending == Pending(w, tasks, old(tasksRun), attempts)
      ensures log == Adoptions(w, tasks, old(tasksRun), attempts)
      ensures forall t :: t in tasks ==>
                (Done(t, attempts) <==> old(Done(t, attempts)) || AdoptionCompletes(t, w.dirs(t), attempts))
      ensures forall t :: t in tasks ==>
                (NextJob(w, t) in pending <==>
                   && t !in CompletedJobs(old(tasksRun), Required(attempts))
                   && FirstAdopted(t, w.dirs(t), attempts) == None)
      ensures forall r :: r in log <==> exists t :: t in tasks && t !in CompletedJobs(old(tasksRun), Required(attempts))
                                                   && FirstAdopted(t, w.dirs(t), attempts) == Some(r)
    {
      hide CompletedJobs, Upsert, Respectful, UpsertAll, UniqueKeys, JobName, FirstAdopted, AdoptionCompletes;
      hide Pending, Adoptions;
      ghost var before := tasksRun;
      pending, log := [], [];
      NothingPrepared(w, before, attempts);
      NothingLogged(before, Required(attempts));
      for k := 0 to |tasks|
        invariant Valid() && pinned == old(pinned) && Advanced(before, log, attempts)
        invariant DistinctTasks(pending) && forall j :: j in pending ==> j.task in tasks[..k] && !Done(j.task, attempts)
        invariant forall j :: j in pending ==> j == NextJob(w, j.task)
        invariant pending == Pending(w, tasks[..k], before, attempts)
        invariant log == Adoptions(w, tasks[..k], before, attempts)
        invariant forall t :: t in tasks[..k] ==>
                    (Done(t, attempts)
                     <==> t in CompletedJobs(before, Required(attempts)) || AdoptionCompletes(t, w.dirs(t), attempts))
        invariant forall i :: k <= i < |tasks| ==>
                    (Done(tasks[i], attempts) <==> tasks[i] in CompletedJobs(before, Required(attempts)))
        invariant forall t :: t in tasks[..k] ==>
                    (NextJob(w, t) in pending <==>
                       t !in CompletedJobs(before, Required(attempts)) && FirstAdopted(t, w.dirs(t), attempts) == None)
        invariant forall r :: r in log <==>
                    exists t :: t in tasks[..k] && t !in CompletedJobs(before, Required(attempts))
                                && FirstAdopted(t, w.dirs(t), attempts) == Some(r)
      {
        ghost var start := tasksRun;
        var job;
        ghost var more;
        PreparedNext(w, tasks, k, before, attempts);
        job, more := PrepareTask(tasks[k], w.dirs(tasks[k]), attempts);
        RespectfulConcat(before, log, more, Required(attempts));
        log := log + more;
        OthersUntouched(start, more, Required(attempts), tasks[k]);
        assert tasks[..k + 1] == tasks[..k] + [tasks[k]];
        if job.Some? {
          pending := pending + [job.value];
        }
      }
      assert tasks[..|tasks|] == tasks;
    }

    /** One job after the other, stopping at the first failure unless told to continue. */
    method RunSequential(w: World, pending: seq<Job>, attempts: int, continueOnFailure: bool)
        returns (code: int, launched: seq<Job>, ghost log: seq<Record>)
      requires Valid() && DistinctTasks(pending) && forall j :: j in pending ==> !Done(j.task, attempts)
      modifies this
      ensures Valid() && pinned == old(pinned) && Advanced(old(tasksRun), log, attempts)
      ensures log == RecordsOf(w, launched, attempts)
      ensures launched <= pending && (code == 0 ==> launched == pending)
      ensures launched == if continueOnFailure then pending else UntilFailure(w, pending, attempts)
      ensures code == 0 <==> continueOnFailure || forall j :: j in pending ==> Succeeds(w, j, attempts)
      ensures code != 0 ==> launched != [] && code == ExitCode(w.outcome(launched[|launched| - 1]).returnCode)
      ensures code != 0 ==> forall i :: 0 <= i < |launched| ==>
                (Succeeds(w, launched[i], attempts) <==> i < |launched| - 1)
      ensures forall j :: j in pending ==> (Done(j.task, attempts) <==> j in launched && Completes(w, j, attempts))
      ensures forall t :: t !in TasksOf(pending) ==> (Done(t, attempts) <==> old(Done(t, attempts)))
    {
      hide CompletedJobs, Upsert, Respectful, UpsertAll, UniqueKeys, RecordsOf, Finalized, Completes, UntilFailure;
      ghost var before := tasksRun;
      launched, log := [], [];
      NothingLogged(before, Required(attempts));
      NoRecords(w, attempts);
      for k := 0 to |pending|
        invariant Valid() && pinned == old(pinned) && Advanced(before, log, attempts)
        invariant launched == pending[..k] && log == RecordsOf(w, launched, attempts)
        invariant forall i :: k <= i < |pending| ==> !Done(pending[i].task, attempts)
        invariant !continueOnFailure ==> forall i :: 0 <= i < k ==> Succeeds(w, pending[i], attempts)
        invariant forall i :: 0 <= i < k ==> (Done(pending[i].task, attempts) <==> Completes(w, pending[i], attempts))
        invariant forall t :: t !in TasksOf(pending) ==>
                    (Done(t, attempts) <==> t in CompletedJobs(before, Required(attempts)))
      {
        ghost var start := tasksRun;
        var ok, returnCode;
        ghost var record;
        ok, returnCode, record := RunJob(w, pending[k], attempts);
        RecordsOfSnoc(w, launched, pending[k], attempts);
        launched := launched + [pending[k]];
        RespectfulConcat(before, log, [record], Required(attempts));
        log := log + [record];
        OthersUntouched(start, [record], Required(attempts), pending[k].task);
        if !ok && !continueOnFailure {
          assert pending[k] in pending && !Succeeds(w, pending[k], attempts);
          UntilFailureAt(w, pending, attempts, k);
          code := if returnCode != 0 then returnCode else 1;
          return;
        }
      }
      if !continueOnFailure {
        UntilFailureAt(w, pending, attempts, |pending|);
      }
      code := 0;
    }

    /** All jobs at once; their results are recorded in whatever order they finish. */
    method RunParallel(w: World, pending: seq<Job>, attempts: int, continueOnFailure: bool)
        returns (code: int, launched: seq<Job>, ghost log: seq<Record>, ghost order: seq<Job>)
      requires Valid() && DistinctTasks(pending) && forall j :: j in pending ==> !Done(j.task, attempts)
      modifies this
      ensures Valid() && pinned == old(pinned) && Advanced(old(tasksRun), log, attempts)
      ensures launched == pending
      ensures NoDuplicates(order) && (forall j :: j in order <==> j in pending) && log == RecordsOf(w, order, attempts)
      ensures |log| == |pending| && forall j :: j in pending ==> RecordOf(w, j, attempts) in log
      ensures code == if continueOnFailure || forall j :: j in pending ==> Succeeds(w, j, attempts) then 0 else 1
      ensures forall j :: j in pending ==> (Done(j.task, attempts) <==> Completes(w, j, attempts))
      ensures forall t :: t !in TasksOf(pending) ==> (Done(t, attempts) <==> old(Done(t, attempts)))
    {
      hide CompletedJobs, Upsert, Respectful, UpsertAll, UniqueKeys, Finalized, Completes, RecordsOf, TasksOf;
      ghost var before := tasksRun;
      launched, log, order := pending, [], [];
      NoRecords(w, attempts);
      NothingLogged(before, Required(attempts));
      var hadFailure := false;
      var running := set j | j in pending;
      DistinctCount(pending);
      while running != {}
        invariant running <= set j | j in pending
        invariant Valid() && pinned == old(pinned) && Advanced(before, log, attempts)
        invariant forall j :: j in running ==> !Done(j.task, attempts)
        invariant forall j :: j in pending && j !in running ==>
                    (Done(j.task, attempts) <==> Completes(w, j, attempts))
        invariant forall t :: t !in TasksOf(pending) ==>
                    (Done(t, attempts) <==> t in CompletedJobs(before, Required(attempts)))
        invariant hadFailure <==> exists j :: j in pending && j !in running && !Succeeds(w, j, attempts)
        invariant NoDuplicates(order) && forall j :: j in order <==> j in pending && j !in running
        invariant log == RecordsOf(w, order, attempts) && |order| + |running| == |pending|
        decreases |running|
      {
        ghost var start := tasksRun;
        var job :| job in running;
        ghost var rest := running - {job};
        OtherTasksDiffer(pending, job);
        TaskOfMember(pending, job);
        var ok, returnCode;
        ghost var record;
        ok, returnCode, record := RunJob(w, job, attempts);
        RecordsOfSnoc(w, order, job, attempts);
        order := order + [job];
        RespectfulConcat(before, log, [record], Required(attempts));
        log := log + [record];
        OthersUntouched(start, [record], Required(attempts), job.task);
        running := running - {job};
        if !ok {
          hadFailure := true;
        }
      }
      RecordsListed(w, order, attempts);
      code := if hadFailure && !continueOnFailure then 1 else 0;
    }

    /** One invocation of the script. */
    method Invoke(w: World, args: Arguments)
        returns (code: int, launched: seq<Job>, ghost log: seq<Record>, ghost order: seq<Job>)
      requires Valid() && (pinned == None ==> tasksRun == [])
      modifies this
      ensures Valid() && (pinned == None ==> tasksRun == [])
      ensures Invocation(w, args, old(Value()), Value(), code, launched, order)
      ensures pinned == if old(pinned) == None && args.tasks != [] then Some(args.pinned) else old(pinned)
      ensures pinned != Some(args.pinned) ==> code != 0 && tasksRun == old(tasksRun) && log == [] && launched == []
      ensures pinned.Some? ==> Advanced(old(tasksRun), log, pinned.value.attempts)
      ensures pinned == Some(args.pinned) && args.tasks != [] ==>
                (code == 0 <==>
                   || args.continueOnFailure
                   || forall j :: j in launched ==> FullResult(w.outcome(j), args.pinned.attempts))
      ensures pinned == Some(args.pinned) && args.tasks != [] && (args.continueOnFailure || args.maxParallel > 1) ==>
                forall t :: t in args.tasks ==>
                  (NextJob(w, t) in launched
                   <==> !old(Done(t, args.pinned.attempts))
                        && FirstAdopted(t, w.dirs(t), args.pinned.attempts) == None)
      ensures pinned == Some(args.pinned) && args.tasks != [] && code != 0 && args.maxParallel <= 1 ==>
                && launched != [] && !FullResult(w.outcome(launched[|launched| - 1]), args.pinned.attempts)
                && (forall j :: j in launched[..|launched| - 1] ==> FullResult(w.outcome(j), args.pinned.attempts))
                && var last := w.outcome(launched[|launched| - 1]).returnCode;
                   code == if last != 0 then last else 1
      ensures code != 0 && args.maxParallel > 1 ==> code == 1
      ensures InOrder(args.tasks, launched)
      ensures forall j :: j in launched ==>
                j.name == JobName(|w.dirs(j.task)| + 1) &&
                j.task in args.tasks && j.task !in CompletedJobs(old(tasksRun), Required(args.pinned.attempts))
      ensures pinned == Some(args.pinned) && args.tasks != [] ==>
                forall t :: t in args.tasks ==>
                  (Done(t, args.pinned.attempts)
                   <==> || old(Done(t, args.pinned.attempts))
                        || AdoptionCompletes(t, w.dirs(t), args.pinned.attempts)
                        || exists j :: j in launched && j.task == t && t != ""
                                       && FullResult(w.outcome(j), args.pinned.attempts))
      ensures code == 0 && !args.continueOnFailure ==>
                forall t :: t in args.tasks ==>
                  (Done(t, args.pinned.attempts)
                   <==> t != "" && (old(Done(t, args.pinned.attempts))
                                    || NoMeanlessAdoption(t, w.dirs(t), args.pinned.attempts)))
      ensures code == 0 && !args.continueOnFailure && args.pinned.attempts >= 1 && "" !in args.tasks ==>
                forall t :: t in args.tasks ==> Done(t, args.pinned.attempts)
    {
      hide CompletedJobs, Upsert, Respectful, UpsertAll, UniqueKeys, FirstAdopted, AdoptionCompletes, Completes;
      hide NoMeanlessAdoption, JobName, Writes, Launches, Finishes, AllSucceed, Code, FullResult, StopsAtFailure;
      var attempts := args.pinned.attempts;
      ghost var before := Value();
      launched, log, order := [], [], [];
      NothingLogged(tasksRun, if pinned.Some? then Required(pinned.value.attempts) else 0);
      var tasks := Dedupe(args.tasks);
      if tasks == [] {
        return 1, [], [], [];
      }
      var ok := EnsureManifest(args.pinned);
      if !ok {
        return 1, [], [], [];
      }
      code, launched, log, order := RunTasks(w, args, tasks);
      InvocationMeans(w, args, before, Value(), code, launched, order);
      CodeMeans(w, args, before.tasksRun);
      LaunchedInOrder(w, args, before.tasksRun);
      OutcomesDecide(w, launched, attempts);
      if code == 0 && !args.continueOnFailure {
        SuccessMeansComplete(w, args.tasks, attempts, before.tasksRun, tasksRun, launched);
      }
    }

    /** Preparing and running, once the settings are accepted. */
    method RunTasks(w: World, args: Arguments, tasks: seq<string>)
        returns (code: int, launched: seq<Job>, ghost log: seq<Record>, ghost order: seq<Job>)
      requires Valid() && tasks == Deduped(args.tasks)
      modifies this
      ensures Valid() && pinned == old(pinned)
      ensures launched == Launches(w, args, old(tasksRun)) && Finishes(args, launched, order)
      ensures code == Code(w, args, launched) && log == Writes(w, args, old(tasksRun), order)
      ensures tasksRun == UpsertAll(old(tasksRun), log)
    {
      hide CompletedJobs, Upsert, Respectful, UpsertAll, UniqueKeys, FirstAdopted, AdoptionCompletes, Completes;
      hide JobName, Deduped, Pending, Adoptions, RecordsOf, UntilFailure, Succeeds, ExitCode;
      ghost var before := tasksRun;
      var attempts := args.pinned.attempts;
      DedupedDistinct(args.tasks);
      LaunchedFacts(w, args, before);
      launched, order := [], [];
      NoRecords(w, attempts);
      var pending;
      pending, log := PrepareAll(w, tasks, attempts);
      UntilFailureFacts(w, pending, attempts);
      if pending == [] {
        code := 0;
        assert log + [] == log;
        return;
      }
      ghost var more;
      if args.maxParallel <= 1 {
        code, launched, more := RunSequential(w, pending, attempts, args.continueOnFailure);
        order := launched;
      } else {
        code, launched, more, order := RunParallel(w, pending, attempts, args.continueOnFailure);
      }
      RespectfulConcat(before, log, more, Required(attempts));
      log := log + more;
    }
  }

  // ---------- bookkeeping for the runs ----------

  lemma NoRecords(w: World, attempts: int)
    ensures RecordsOf(w, [], attempts) == []
  {
  }

  /** Code 0 means success or tolerated failures; a sequential run otherwise ends with its only failure. */
  lemma CodeMeans(w: World, args: Arguments, records: seq<Record>)
    ensures var launched, a := Launches(w, args, records), args.pinned.attempts;
      && (Code(w, args, launched) == 0
          <==> args.continueOnFailure || forall j :: j in launched ==> Succeeds(w, j, a))
      && (Code(w, args, launched) == 0 && !args.continueOnFailure ==> AllSucceed(w, launched, a))
      && (Code(w, args, launched) != 0 && args.maxParallel > 1 ==> Code(w, args, launched) == 1)
      && (Code(w, args, launched) != 0 && args.maxParallel <= 1 ==>
            && StopsAtFailure(w, launched, a)
            && Code(w, args, launched) == ExitCode(w.outcome(launched[|launched| - 1]).returnCode))
  {
    hide Pending, Succeeds, Deduped;
    UntilFailureFacts(w, Pending(w, Deduped(args.tasks), records, args.pinned.attempts), args.pinned.attempts);
  }

  lemma {:induction false} DistinctCount(jobs: seq<Job>)
    requires DistinctTasks(jobs)
    ensures |set j | j in jobs| == |jobs|
  {
    if jobs != [] {
      DistinctCount(jobs[1..]);
      assert (set j | j in jobs) == {jobs[0]} + set j | j in jobs[1..];
      assert jobs[0] !in jobs[1..];
    }
  }

  lemma TaskOfMember(pending: seq<Job>, job: Job)
    requires job in pending
    ensures job.task in TasksOf(pending)
  {
  }

  lemma OtherTasksDiffer(pending: seq<Job>, job: Job)
    requires DistinctTasks(pending) && job in pending
    ensures forall j :: j in pending && j != job ==> j.task != job.task
  {
  }

  /** `load_tasks` keeps the first occurrence of every task. */
  method Dedupe(tasks: seq<string>) returns (deduped: seq<string>)
    ensures deduped == Deduped(tasks)
    ensures NoDuplicates(deduped) && (tasks != [] <==> deduped != []) && forall t :: t in deduped <==> t in tasks
    ensures forall i, j :: 0 <= i < j < |deduped| ==> FirstIndex(tasks, deduped[i]) < FirstIndex(tasks, deduped[j])
  {
    hide Deduped;
    NothingDeduped();
    deduped := [];
    var seen: set<string> := {};
    for k := 0 to |tasks|
      invariant deduped == Deduped(tasks[..k])
      invariant NoDuplicates(deduped) && forall t :: t in deduped <==> t in tasks[..k]
      invariant forall t :: t in seen <==> t in deduped
      invariant forall i :: 0 <= i < |deduped| ==> FirstIndex(tasks, deduped[i]) < k
      invariant forall i, j :: 0 <= i < j < |deduped| ==> FirstIndex(tasks, deduped[i]) < FirstIndex(tasks, deduped[j])
    {
      assert tasks[..k + 1] == tasks[..k] + [tasks[k]];
      DedupedNext(tasks, k);
      if tasks[k] !in seen {
        FirstIndexHere(tasks, k);
        seen := seen + {tasks[k]};
        deduped := deduped + [tasks[k]];
      }
    }
    assert tasks[..|tasks|] == tasks;
    assert tasks != [] ==> tasks[0] in deduped;
    assert deduped != [] ==> deduped[0] in tasks;
  }

  lemma RecordsListed(w: World, jobs: seq<Job>, attempts: int)
    ensures |RecordsOf(w, jobs, attempts)| == |jobs|
    ensures forall j :: j in jobs ==> RecordOf(w, j, attempts) in RecordsOf(w, jobs, attempts)
  {
    hide RecordOf;
    forall j | j in jobs
      ensures RecordOf(w, j, attempts) in RecordsOf(w, jobs, attempts)
    {
      var i :| 0 <= i < |jobs| && jobs[i] == j;
      assert RecordsOf(w, jobs, attempts)[i] == RecordOf(w, j, attempts);
    }
  }

  lemma RecordsOfSnoc(w: World, jobs: seq<Job>, j: Job, attempts: int)
    ensures RecordsOf(w, jobs + [j], attempts) == RecordsOf(w, jobs, attempts) + [RecordOf(w, j, attempts)]
  {
  }

  lemma NothingLogged(records: seq<Record>, required: int)
    ensures Respectful(records, [], required) && UpsertAll(records, []) == records
  {
  }

  /** Writing records of one task leaves the completion of all others alone. */
  lemma OthersUntouched(records: seq<Record>, log: seq<Record>, required: int, task: string)
    requires forall r :: r in log ==> r.task == task
    ensures forall t :: t != task ==>
              (t in CompletedJobs(UpsertAll(records, log), required) <==> t in CompletedJobs(records, required))
  {
    forall t | t != task
      ensures t in CompletedJobs(UpsertAll(records, log), required) <==> t in CompletedJobs(records, required)
    {
      OtherTasksOnly(records, log, required, t);
    }
  }

  lemma OneUpsert(records: seq<Record>, r: Record, required: int, t: string)
    requires r.task == t && t !in CompletedJobs(records, required)
    ensures Respectful(records, [r], required) && UpsertAll(records, [r]) == Upsert(records, r)
  {
    assert [r][1..] == [];
    assert UpsertAll(Upsert(records, r), []) == Upsert(records, r);
  }

  /** Records of other tasks neither complete `t` nor undo it. */
  lemma {:induction false} OtherTasksOnly(records: seq<Record>, log: seq<Record>, required: int, t: string)
    requires forall r :: r in log ==> r.task != t
    ensures t in CompletedJobs(UpsertAll(records, log), required) <==> t in CompletedJobs(records, required)
    decreases |log|
  {
    hide CompletedJobs, Upsert;
    if log != [] {
      assert log[0] in log && forall r :: r in log[1..] ==> r in log;
      UpsertOtherTask(records, log[0], required, t);
      OtherTasksOnly(Upsert(records, log[0]), log[1..], required, t);
    }
  }
}
