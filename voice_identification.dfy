/**
  The identification engine of `VoiceIdentification` (stage two): the level
  loop that feeds each level's batch to a pool of workers through a queue,
  the per-pair retry and score recording of `batch_worker`, and the decision
  that averages scores per speaker and picks the best single reference.

  The speaker-recognition model, the SFTP transfer and the database are
  outside the model. What they do to one worker's job is an input (`Trial`);
  the worker pool runs sequentially, the `k`-th `get` of level `l` being
  served by the `k`-th worker with `trial(l, k)`.
 */
module VoiceIdentification {
  import opened Wrappers
  import opened VoiceBatch
  import DbFtpInterface

  /** Attempts of the comparison per pair: `for i in range(5)`. */
  const MaxTries := 5

  /** One `(hash, speaker_id, score)` row of `local_analysis_dataframe`. */
  datatype ScoreRow = ScoreRow(hash: Hash, speaker: SpeakerId, score: real)

  /**
    What the outside world does to one worker's job: whether the SFTP fetch
    returned, what the `k`-th comparison attempt gave (`None` for a
    RuntimeError), and whether the recording block raised RuntimeError.
   */
  datatype Trial = Trial(fetched: bool, compare: nat -> Option<real>, recordRaises: bool)

  /**
    The engine's state: the analysis table (newest row first), the keys of
    `local_score` in insertion order with their values, and
    `instance_broken_101`.
   */
  datatype Engine = Engine(table: seq<ScoreRow>, keys: seq<Hash>, scores: map<Hash, real>, broken: bool)

  /** `local_score` as a dict: each key once, and every hash in the table has a score. */
  ghost predicate Consistent(st: Engine)
  {
    && (forall i, j :: 0 <= i < j < |st.keys| ==> st.keys[i] != st.keys[j])
    && (forall h :: h in st.scores <==> h in st.keys)
    && (forall k :: 0 <= k < |st.table| ==> st.table[k].hash in st.scores)
  }

  // ---------------------------------------------------------------------------
  // Retry of the comparison

  /** The score of the first attempt from the `i`-th on that does not raise, if one of the five does. */
  function FirstScore(compare: nat -> Option<real>, i: nat): Option<real>
    decreases MaxTries - i
  {
    if i >= MaxTries then None
    else if compare(i).Some? then compare(i)
    else FirstScore(compare, i + 1)
  }

  /**
    The first success wins, and there is none only if all five attempts failed.
   */
  lemma {:induction false} FirstScoreIsFirstSuccess(compare: nat -> Option<real>, i: nat)
    requires i <= MaxTries
    ensures FirstScore(compare, i).Some? <==> exists k :: i <= k < MaxTries && compare(k).Some?
    ensures FirstScore(compare, i).Some? ==>
              exists k :: i <= k < MaxTries && compare(k) == FirstScore(compare, i) &&
                          forall j :: i <= j < k ==> compare(j).None?
    decreases MaxTries - i
  {
    if i < MaxTries && compare(i).None? {
      FirstScoreIsFirstSuccess(compare, i + 1);
    }
  }

  /**
    The retry loop of `batch_worker`: at most five attempts, stopping at the
    first that does not raise; after five failures there is no score.
   */
  method CompareWithRetry(compare: nat -> Option<real>) returns (score: Option<real>, tries: nat)
    ensures 1 <= tries <= MaxTries
    ensures forall k :: 0 <= k < tries - 1 ==> compare(k).None?
    ensures score == compare(tries - 1)
    ensures score.None? ==> tries == MaxTries
    ensures score == FirstScore(compare, 0)
  {
    score := None;
    tries := 0;
    while tries < MaxTries
      invariant 0 <= tries <= MaxTries && score == None
      invariant forall k :: 0 <= k < tries ==> compare(k).None?
      invariant FirstScore(compare, tries) == FirstScore(compare, 0)
    {
      score := compare(tries);
      tries := tries + 1;
      if score.Some? {
        return;
      }
    }
  }

  // ---------------------------------------------------------------------------
  // Recording a score

  /**
    A scored pair: its row goes in front of the table (a hash may appear in
    several rows) and `local_score[hash]` is overwritten, the key keeping its
    place if it was there; nothing else changes.
   */
  function Recorded(st: Engine, c: Candidate, v: real): (r: Engine)
    requires Consistent(st)
    ensures Consistent(r)
    ensures r.table == [ScoreRow(c.hash, c.speaker, v)] + st.table
    ensures r.scores.Keys == st.scores.Keys + {c.hash} && r.scores[c.hash] == v
    ensures forall h :: h in st.scores && h != c.hash ==> r.scores[h] == st.scores[h]
    ensures st.keys <= r.keys && |r.keys| <= |st.keys| + 1
    ensures r.broken == st.broken
  {
    var keys := if c.hash in st.scores then st.keys else st.keys + [c.hash];
    Engine([ScoreRow(c.hash, c.speaker, v)] + st.table, keys, st.scores[c.hash := v], st.broken)
  }

  /** The job ends in the recording block raising RuntimeError. */
  predicate Raises(t: Trial)
  {
    t.fetched && FirstScore(t.compare, 0).Some? && t.recordRaises
  }

  /** The job ends with its score recorded. */
  predicate Scores(t: Trial)
  {
    t.fetched && FirstScore(t.compare, 0).Some? && !t.recordRaises
  }

  /**
    `batch_worker` on one queue entry. `None` ends the worker; a failed fetch,
    or five failed attempts (the unbound `score` then raises a NameError,
    which is not caught), end the thread with nothing recorded; a RuntimeError
    in the recording block only sets the broken flag.
   */
  function Worked(st: Engine, job: Option<Candidate>, t: Trial): (r: Engine)
    requires Consistent(st)
    ensures Consistent(r)
    ensures r.broken == (st.broken || (job.Some? && Raises(t)))
    ensures job.Some? && Scores(t) ==> r == Recorded(st, job.value, FirstScore(t.compare, 0).value)
    ensures !(job.Some? && Scores(t)) ==> r.table == st.table && r.keys == st.keys && r.scores == st.scores
  {
    if job.None? || !t.fetched then st
    else
      match FirstScore(t.compare, 0)
      case None => st
      case Some(v) => if t.recordRaises then st.(broken := true) else Recorded(st, job.value, v)
  }

  // ---------------------------------------------------------------------------
  // The level loop

  /** The batch entries as queue items. */
  function Somes(batch: seq<Candidate>): (q: seq<Option<Candidate>>)
    ensures |q| == |batch| && forall k :: 0 <= k < |batch| ==> q[k] == Some(batch[k])
  {
    seq(|batch|, k requires 0 <= k < |batch| => Some(batch[k]))
  }

  /** The end-of-queue signals. */
  function Nones(n: nat): (q: seq<Option<Candidate>>)
    ensures |q| == n && forall k :: 0 <= k < n ==> q[k] == None
  {
    seq(n, _ => None)
  }

  /** One level's queue: the batch, then one `None` per worker. */
  function Queued(batch: seq<Candidate>, workers: nat): (q: seq<Option<Candidate>>)
    ensures |q| == |batch| + workers
  {
    Somes(batch) + Nones(workers)
  }

  /**
    Filling one level's queue: every batch entry in batch order, then one
    `None` per worker.
   */
  method FillQueue(batch: seq<Candidate>, workers: nat) returns (queue: seq<Option<Candidate>>)
    ensures queue == Queued(batch, workers)
    ensures |queue| == |batch| + workers
    ensures forall k :: 0 <= k < |batch| ==> queue[k] == Some(batch[k])
    ensures forall k :: |batch| <= k < |queue| ==> queue[k] == None
  {
    queue := [];
    for k := 0 to |batch|
      invariant queue == Somes(batch[..k])
    {
      assert Somes(batch[..k + 1]) == Somes(batch[..k]) + [Some(batch[k])];
      queue := queue + [Some(batch[k])];
    }
    assert batch[..|batch|] == batch;
    for k := 0 to workers
      invariant queue == Somes(batch) + Nones(k)
    {
      assert Nones(k + 1) == Nones(k) + [None];
      queue := queue + [None];
    }
  }

  /** The jobs handed out one after the other; the `k`-th is served with `trial(level, k)`. */
  function Process(st: Engine, jobs: seq<Option<Candidate>>, level: nat, trial: (nat, nat) -> Trial): (r: Engine)
    requires Consistent(st)
    ensures Consistent(r)
  {
    if jobs == [] then st
    else Worked(Process(st, jobs[..|jobs| - 1], level, trial), jobs[|jobs| - 1], trial(level, |jobs| - 1))
  }

  /** One level: every worker does a single `get` from the queue. */
  function LevelRun(st: Engine, batch: seq<Candidate>, workers: nat, level: nat, trial: (nat, nat) -> Trial): (r: Engine)
    requires Consistent(st)
    ensures Consistent(r)
  {
    Process(st, Queued(batch, workers)[..workers], level, trial)
  }

  /** `for batch_number in range(self.n_level)`, the batch rebuilt at every level. */
  function Levels(st: Engine, db: seq<seq<SubclipRow>>, workers: nat, n: nat, trial: (nat, nat) -> Trial): (r: Engine)
    requires Consistent(st)
    ensures Consistent(r)
  {
    if n == 0 then st else LevelRun(Levels(st, db, workers, n - 1, trial), Batch(db), workers, n - 1, trial)
  }

  lemma {:induction false} ProcessTrailingNones(st: Engine, jobs: seq<Option<Candidate>>, extra: nat, level: nat, trial: (nat, nat) -> Trial)
    requires Consistent(st)
    ensures Process(st, jobs + Nones(extra), level, trial) == Process(st, jobs, level, trial)
  {
    if extra > 0 {
      var longer := jobs + Nones(extra);
      assert longer[..|longer| - 1] == jobs + Nones(extra - 1);
      ProcessTrailingNones(st, jobs, extra - 1, level, trial);
    } else {
      assert jobs + Nones(extra) == jobs;
    }
  }

  /**
    A level scores exactly the first min(W, |batch|) batch entries, in queue
    order: the remaining workers meet a `None`, the rest of the batch is
    never taken.
   */
  lemma {:induction false} LevelTakesFirst(st: Engine, batch: seq<Candidate>, workers: nat, level: nat, trial: (nat, nat) -> Trial)
    requires Consistent(st)
    ensures LevelRun(st, batch, workers, level, trial)
            == Process(st, Somes(batch[..Min(workers, |batch|)]), level, trial)
  {
    var m := Min(workers, |batch|);
    var q := Queued(batch, workers)[..workers];
    assert q == Somes(batch[..m]) + Nones(workers - m);
    ProcessTrailingNones(st, Somes(batch[..m]), workers - m, level, trial);
  }

  /** The last job of a run acts on the state the earlier ones left. */
  lemma {:induction false} ProcessLast(st: Engine, jobs: seq<Option<Candidate>>, level: nat, trial: (nat, nat) -> Trial)
    requires Consistent(st) && jobs != []
    ensures Process(st, jobs, level, trial)
            == Worked(Process(st, jobs[..|jobs| - 1], level, trial), jobs[|jobs| - 1], trial(level, |jobs| - 1))
  {
  }

  /** The score a scored job records. */
  function ScoreOf(t: Trial): real
    requires Scores(t)
  {
    FirstScore(t.compare, 0).value
  }

  /** The row one job records: none unless it is a batch entry whose trial scores. */
  function RowOf(job: Option<Candidate>, t: Trial): seq<ScoreRow>
  {
    if job.Some? && Scores(t) then [ScoreRow(job.value.hash, job.value.speaker, ScoreOf(t))] else []
  }

  /** The rows a run of jobs records, newest first. */
  function NewRows(jobs: seq<Option<Candidate>>, level: nat, trial: (nat, nat) -> Trial): seq<ScoreRow>
  {
    if jobs == [] then []
    else RowOf(jobs[|jobs| - 1], trial(level, |jobs| - 1)) + NewRows(jobs[..|jobs| - 1], level, trial)
  }

  lemma {:induction false} WorkedTable(st: Engine, job: Option<Candidate>, t: Trial)
    requires Consistent(st)
    ensures Worked(st, job, t).table == RowOf(job, t) + st.table
  {
  }

  lemma {:induction false} Regroup<T>(a: seq<T>, b: seq<T>, c: seq<T>)
    ensures a + (b + c) == (a + b) + c
  {
  }

  /** Over a run of jobs the table only gains rows, in front. */
  lemma {:induction false} ProcessTable(st: Engine, jobs: seq<Option<Candidate>>, level: nat, trial: (nat, nat) -> Trial)
    requires Consistent(st)
    ensures Process(st, jobs, level, trial).table == NewRows(jobs, level, trial) + st.table
  {
    if jobs != [] {
      var n := |jobs| - 1;
      var prev := Process(st, jobs[..n], level, trial);
      var t := trial(level, n);
      ProcessTable(st, jobs[..n], level, trial);
      ProcessLast(st, jobs, level, trial);
      WorkedTable(prev, jobs[n], t);
      Regroup(RowOf(jobs[n], t), NewRows(jobs[..n], level, trial), st.table);
    }
  }

  /** At most one row per job, each holding the pair of one of the jobs. */
  lemma {:induction false} NewRowsFromJobs(jobs: seq<Option<Candidate>>, level: nat, trial: (nat, nat) -> Trial)
    ensures var rows := NewRows(jobs, level, trial);
      && |rows| <= |jobs|
      && forall k :: 0 <= k < |rows| ==> Some(Candidate(rows[k].speaker, rows[k].hash)) in jobs
  {
    if jobs != [] {
      var n := |jobs| - 1;
      NewRowsFromJobs(jobs[..n], level, trial);
      assert jobs == jobs[..n] + [jobs[n]];
    }
  }

  /**
    When every job of a run is scored, each one prepends its row: the new
    rows are those of the jobs from the last back to the first.
   */
  lemma {:induction false} NewRowsAllScored(cs: seq<Candidate>, level: nat, trial: (nat, nat) -> Trial)
    requires forall k :: 0 <= k < |cs| ==> Scores(trial(level, k))
    ensures var rows := NewRows(Somes(cs), level, trial);
      && |rows| == |cs|
      && forall k :: 0 <= k < |cs| ==> rows[|cs| - 1 - k] == ScoreRow(cs[k].hash, cs[k].speaker, ScoreOf(trial(level, k)))
  {
    if cs != [] {
      var n := |cs| - 1;
      assert Somes(cs)[..n] == Somes(cs[..n]);
      NewRowsAllScored(cs[..n], level, trial);
    }
  }

  /** Over a run of jobs `local_score` keeps every key, in its place; keys are only appended. */
  lemma {:induction false} ProcessKeys(st: Engine, jobs: seq<Option<Candidate>>, level: nat, trial: (nat, nat) -> Trial)
    requires Consistent(st)
    ensures var r := Process(st, jobs, level, trial);
      st.keys <= r.keys && st.scores.Keys <= r.scores.Keys
  {
    if jobs != [] {
      ProcessKeys(st, jobs[..|jobs| - 1], level, trial);
      ProcessLast(st, jobs, level, trial);
    }
  }

  /** Whether the recording block of some job of the run raised. */
  predicate AnyRaised(jobs: seq<Option<Candidate>>, level: nat, trial: (nat, nat) -> Trial)
  {
    jobs != [] &&
    (AnyRaised(jobs[..|jobs| - 1], level, trial) || (jobs[|jobs| - 1].Some? && Raises(trial(level, |jobs| - 1))))
  }

  /** The broken flag is never reset, and it is set only when some job's recording block raised. */
  lemma {:induction false} ProcessBroken(st: Engine, jobs: seq<Option<Candidate>>, level: nat, trial: (nat, nat) -> Trial)
    requires Consistent(st)
    ensures Process(st, jobs, level, trial).broken == (st.broken || AnyRaised(jobs, level, trial))
  {
    if jobs != [] {
      ProcessBroken(st, jobs[..|jobs| - 1], level, trial);
      ProcessLast(st, jobs, level, trial);
    }
  }

  /** Some pair among the first `m` that level `l` takes ends with the recording block raising. */
  predicate RaisedAt(trial: (nat, nat) -> Trial, l: nat, m: nat)
  {
    m > 0 && (RaisedAt(trial, l, m - 1) || Raises(trial(l, m - 1)))
  }

  /** Some level before the `n`-th raised so. */
  predicate RaisedBefore(trial: (nat, nat) -> Trial, n: nat, m: nat)
  {
    n > 0 && (RaisedBefore(trial, n - 1, m) || RaisedAt(trial, n - 1, m))
  }

  lemma {:induction false} AnyRaisedSomes(cs: seq<Candidate>, level: nat, trial: (nat, nat) -> Trial)
    ensures AnyRaised(Somes(cs), level, trial) == RaisedAt(trial, level, |cs|)
  {
    if cs != [] {
      assert Somes(cs)[..|cs| - 1] == Somes(cs[..|cs| - 1]);
      AnyRaisedSomes(cs[..|cs| - 1], level, trial);
    }
  }

  /** `RaisedBefore` spelled out: a level below `n` and a pair below `m` whose recording raised. */
  lemma {:induction false} RaisedBeforeMeans(trial: (nat, nat) -> Trial, n: nat, m: nat)
    ensures RaisedBefore(trial, n, m) <==> exists l, k :: 0 <= l < n && 0 <= k < m && Raises(trial(l, k))
  {
    if n > 0 {
      RaisedBeforeMeans(trial, n - 1, m);
      RaisedAtMeans(trial, n - 1, m);
    }
  }

  lemma {:induction false} RaisedAtMeans(trial: (nat, nat) -> Trial, l: nat, m: nat)
    ensures RaisedAt(trial, l, m) <==> exists k :: 0 <= k < m && Raises(trial(l, k))
  {
    if m > 0 {
      RaisedAtMeans(trial, l, m - 1);
    }
  }

  /**
    After the levels the broken flag is set exactly when it was set before or
    when some level took a pair whose recording block raised.
   */
  lemma {:induction false} BrokenOnlyByRecording(st: Engine, db: seq<seq<SubclipRow>>, workers: nat, n: nat, trial: (nat, nat) -> Trial)
    requires Consistent(st)
    ensures Levels(st, db, workers, n, trial).broken ==
              (st.broken || RaisedBefore(trial, n, Min(workers, |Batch(db)|)))
  {
    if n > 0 {
      var b := Batch(db);
      BrokenOnlyByRecording(st, db, workers, n - 1, trial);
      var before := Levels(st, db, workers, n - 1, trial);
      assert Levels(st, db, workers, n, trial) == LevelRun(before, b, workers, n - 1, trial);
      LevelBroken(before, b, workers, n - 1, trial);
    }
  }

  /** One level sets the broken flag exactly when one of the pairs it takes raised while recording. */
  lemma {:induction false} LevelBroken(st: Engine, batch: seq<Candidate>, workers: nat, level: nat, trial: (nat, nat) -> Trial)
    requires Consistent(st)
    ensures LevelRun(st, batch, workers, level, trial).broken ==
              (st.broken || RaisedAt(trial, level, Min(workers, |batch|)))
  {
    var m := Min(workers, |batch|);
    LevelTakesFirst(st, batch, workers, level, trial);
    ProcessBroken(st, Somes(batch[..m]), level, trial);
    AnyRaisedSomes(batch[..m], level, trial);
  }

  // ---------------------------------------------------------------------------
  // Aggregation and decision

  function SumFor(table: seq<ScoreRow>, sp: SpeakerId): real
  {
    if table == [] then 0.0 else (if table[0].speaker == sp then table[0].score else 0.0) + SumFor(table[1..], sp)
  }

  function CountFor(table: seq<ScoreRow>, sp: SpeakerId): nat
  {
    if table == [] then 0 else (if table[0].speaker == sp then 1 else 0) + CountFor(table[1..], sp)
  }

  /** `groupby(speaker_id).apply(mean of score)` for one speaker that has rows. */
  function Mean(table: seq<ScoreRow>, sp: SpeakerId): real
    requires CountFor(table, sp) > 0
  {
    SumFor(table, sp) / (CountFor(table, sp) as real)
  }

  /** A speaker has rows exactly when it is the speaker of some row. */
  lemma {:induction false} CountForPositive(table: seq<ScoreRow>, sp: SpeakerId)
    ensures CountFor(table, sp) > 0 <==> exists i :: 0 <= i < |table| && table[i].speaker == sp
  {
    if table != [] {
      CountForPositive(table[1..], sp);
      if CountFor(table[1..], sp) > 0 {
        var i :| 0 <= i < |table[1..]| && table[1..][i].speaker == sp;
        assert table[i + 1].speaker == sp;
      }
      assert forall i :: 1 <= i < |table| ==> table[i] == table[1..][i - 1];
    }
  }

  /** The speaker of `cands` with the highest mean; among equal means the model keeps the earliest one. */
  function BestAmong(table: seq<ScoreRow>, cands: seq<SpeakerId>): (b: SpeakerId)
    requires cands != [] && forall i :: 0 <= i < |cands| ==> CountFor(table, cands[i]) > 0
    ensures b in cands
    ensures forall i :: 0 <= i < |cands| ==> Mean(table, cands[i]) <= Mean(table, b)
  {
    if |cands| == 1 then cands[0]
    else
      var rest := BestAmong(table, cands[1..]);
      if Mean(table, cands[0]) >= Mean(table, rest) then cands[0] else rest
  }

  /**
    `ordered_result_dataframe.sort_values(ascending=False).index[0]`: a
    speaker with at least one row whose mean score is not below any other
    speaker's mean.
   */
  function BestSpeaker(table: seq<ScoreRow>): (sp: SpeakerId)
    requires table != []
    ensures CountFor(table, sp) > 0
    ensures forall other :: CountFor(table, other) > 0 ==> Mean(table, other) <= Mean(table, sp)
  {
    var speakers := seq(|table|, i requires 0 <= i < |table| => table[i].speaker);
    assert forall i :: 0 <= i < |speakers| ==> CountFor(table, speakers[i]) > 0 by {
      forall i | 0 <= i < |speakers| ensures CountFor(table, speakers[i]) > 0 {
        CountForPositive(table, speakers[i]);
      }
    }
    var sp := BestAmong(table, speakers);
    assert forall other :: CountFor(table, other) > 0 ==> other in speakers by {
      forall other | CountFor(table, other) > 0 ensures other in speakers {
        CountForPositive(table, other);
        var i :| 0 <= i < |table| && table[i].speaker == other;
        assert speakers[i] == other;
      }
    }
    sp
  }

  /**
    The first item of `sorted(local_score.items(), key=score, reverse=True)`:
    the sort is stable, so it is the earliest-inserted key with the highest
    score — every key has a score not above it, every key before it a
    strictly lower one.
   */
  function BestIndex(keys: seq<Hash>, scores: map<Hash, real>): (i: nat)
    requires keys != [] && forall k :: 0 <= k < |keys| ==> keys[k] in scores
    ensures i < |keys|
    ensures forall j :: 0 <= j < |keys| ==> scores[keys[j]] <= scores[keys[i]]
    ensures forall j :: 0 <= j < i ==> scores[keys[j]] < scores[keys[i]]
  {
    if |keys| == 1 then 0
    else
      var i := BestIndex(keys[..|keys| - 1], scores);
      if scores[keys[|keys| - 1]] > scores[keys[i]] then |keys| - 1 else i
  }

  /** The result of `identify_speaker`. */
  datatype Outcome =
    | Failed101                 // `return 101`: the broken flag was set
    | AggregationRaised         // no row was recorded: the aggregation over the empty table raises
    | TypeErrorRaised           // the five-argument call of `insert_subclip` (see `DecisionAsWritten`)
    | Decided(hash: Hash, speaker: SpeakerId, score: real, prediction: bool)

  /**
    The decision after the last level, with `insert_subclip` called with the
    four arguments it declares. A set broken flag gives 101 and changes
    nothing; with no recorded row the aggregation raises. Otherwise the
    speaker has the best mean, the hash is the earliest-inserted one with the
    best single score, the prediction is that score strictly above the
    threshold, and the table is emptied while `local_score` is kept.
   */
  function Decision(st: Engine, threshold: real): (r: (Outcome, Engine))
    requires Consistent(st)
    ensures st.broken ==> r == (Failed101, st)
    ensures !st.broken && st.table == [] ==> r == (AggregationRaised, st)
    ensures !st.broken && st.table != [] ==>
      && r.0.Decided?
      && r.1 == st.(table := [])
      && CountFor(st.table, r.0.speaker) > 0
      && (forall other :: CountFor(st.table, other) > 0 ==> Mean(st.table, other) <= Mean(st.table, r.0.speaker))
      && r.0.hash in st.scores && r.0.score == st.scores[r.0.hash]
      && (forall h :: h in st.scores ==> st.scores[h] <= r.0.score)
      && (forall i, j :: 0 <= j < i < |st.keys| && st.keys[i] == r.0.hash ==> st.scores[st.keys[j]] < r.0.score)
      && r.0.prediction == (r.0.score > threshold)
  {
    if st.broken then (Failed101, st)
    else if st.table == [] then (AggregationRaised, st)
    else
      var speaker := BestSpeaker(st.table);
      assert st.table[0].hash in st.keys;
      var i := BestIndex(st.keys, st.scores);
      var hash := st.keys[i];
      assert forall h :: h in st.scores ==> exists j :: 0 <= j < |st.keys| && st.keys[j] == h;
      (Decided(hash, speaker, st.scores[hash], st.scores[hash] > threshold), st.(table := []))
  }

  /**
    The decision as the source writes it: `insert_subclip` is passed five
    arguments (the timestamp last) but declares four, so once a score was
    recorded the call raises TypeError before the table is emptied, and
    nothing is returned or stored.
   */
  function DecisionAsWritten(st: Engine, threshold: real): (r: (Outcome, Engine))
    requires Consistent(st)
    ensures r.1 == st
    ensures r.0 != Failed101 <==> !st.broken
    ensures !r.0.Decided?
  {
    if st.broken then (Failed101, st)
    else if st.table == [] then (AggregationRaised, st)
    else (TypeErrorRaised, st)
  }

  /**
    The discrepancy: whenever a score was recorded and the flag is clear, the
    decision as written never decides and leaves this job's rows in the table,
    where the next job's means will count them; the corrected decision
    decides and empties the table.
   */
  lemma {:induction false} AsWrittenNeverDecides(st: Engine, threshold: real)
    requires Consistent(st) && !st.broken && st.table != []
    ensures DecisionAsWritten(st, threshold).0 == TypeErrorRaised
    ensures DecisionAsWritten(st, threshold).1.table == st.table
    ensures Decision(st, threshold).0.Decided? && Decision(st, threshold).1.table == []
  {
  }

  // ---------------------------------------------------------------------------
  // The per-worker copies, as written

  /**
    `batch_worker` as written, with its copy of the clip: `path{w}` is copied
    once, before the level loop, and line 234 removes it as soon as worker
    `w` is past its fetch, whatever the comparison gave. A later job of that
    worker cannot score: `os.remove` of the missing copy raises
    FileNotFoundError, which is not a RuntimeError, and the thread ends with
    nothing recorded. `gone` holds the workers whose copy was removed.
   */
  function WorkedAsWritten(st: Engine, gone: set<nat>, w: nat, job: Option<Candidate>, t: Trial): (r: (Engine, set<nat>))
    requires Consistent(st)
    ensures Consistent(r.0)
    ensures r.1 == if job.Some? && t.fetched then gone + {w} else gone
    ensures w in gone ==> r.0 == st
    ensures w !in gone ==> r.0 == Worked(st, job, t)
  {
    if job.None? || !t.fetched || w in gone then (st, gone)
    else (Worked(st, job, t), gone + {w})
  }

  /** A level's jobs as written: the `k`-th is served by worker `k`. */
  function ProcessAsWritten(st: Engine, gone: set<nat>, jobs: seq<Option<Candidate>>, level: nat,
                            trial: (nat, nat) -> Trial): (r: (Engine, set<nat>))
    requires Consistent(st)
    ensures Consistent(r.0)
  {
    if jobs == [] then (st, gone)
    else
      var p := ProcessAsWritten(st, gone, jobs[..|jobs| - 1], level, trial);
      WorkedAsWritten(p.0, p.1, |jobs| - 1, jobs[|jobs| - 1], trial(level, |jobs| - 1))
  }

  /** The level loop as written: every copy is there before the first level and none is made again. */
  function LevelsAsWritten(st: Engine, db: seq<seq<SubclipRow>>, workers: nat, n: nat,
                           trial: (nat, nat) -> Trial): (r: (Engine, set<nat>))
    requires Consistent(st)
    ensures Consistent(r.0)
  {
    if n == 0 then (st, {})
    else
      var p := LevelsAsWritten(st, db, workers, n - 1, trial);
      ProcessAsWritten(p.0, p.1, Queued(Batch(db), workers)[..workers], n - 1, trial)
  }

  /** One job as written adds a row only by removing a copy that was still there. */
  lemma {:induction false} WorkedAsWrittenBound(st: Engine, gone: set<nat>, w: nat, job: Option<Candidate>, t: Trial)
    requires Consistent(st)
    ensures var r := WorkedAsWritten(st, gone, w, job, t);
      gone <= r.1 && |r.0.table| - |st.table| <= |r.1| - |gone|
  {
    var r := WorkedAsWritten(st, gone, w, job, t);
    if job.Some? && t.fetched && w !in gone {
      assert |r.1| == |gone| + 1;
    }
  }

  /** Over one level as written, the rows added are at most the copies removed, all of workers below `|jobs|`. */
  lemma {:induction false} ProcessAsWrittenBound(st: Engine, gone: set<nat>, jobs: seq<Option<Candidate>>, level: nat,
                                                 trial: (nat, nat) -> Trial)
    requires Consistent(st)
    ensures var r := ProcessAsWritten(st, gone, jobs, level, trial);
      && gone <= r.1
      && (forall w :: w in r.1 ==> w in gone || w < |jobs|)
      && |r.0.table| - |st.table| <= |r.1| - |gone|
  {
    if jobs != [] {
      var n := |jobs| - 1;
      ProcessAsWrittenBound(st, gone, jobs[..n], level, trial);
      var p := ProcessAsWritten(st, gone, jobs[..n], level, trial);
      WorkedAsWrittenBound(p.0, p.1, n, jobs[n], trial(level, n));
    }
  }

  lemma {:induction false} RangeCard(s: set<nat>, n: nat)
    requires forall w :: w in s ==> w < n
    ensures |s| <= n
  {
    if n > 0 {
      var s' := s - {n - 1};
      RangeCard(s', n - 1);
      assert s <= s' + {n - 1};
    } else {
      assert s == {};
    }
  }

  /**
    As written, each worker scores at most one pair per `identify_speaker`,
    however many levels run: the table gains at most `W` rows in all.
   */
  lemma {:induction false} AsWrittenRecordsOncePerWorker(st: Engine, db: seq<seq<SubclipRow>>, workers: nat, n: nat,
                                                         trial: (nat, nat) -> Trial)
    requires Consistent(st)
    ensures var r := LevelsAsWritten(st, db, workers, n, trial);
      && (forall w :: w in r.1 ==> w < workers)
      && |r.0.table| <= |st.table| + |r.1| <= |st.table| + workers
  {
    var r := LevelsAsWritten(st, db, workers, n, trial);
    if n > 0 {
      AsWrittenRecordsOncePerWorker(st, db, workers, n - 1, trial);
      var p := LevelsAsWritten(st, db, workers, n - 1, trial);
      var jobs := Queued(Batch(db), workers)[..workers];
      ProcessAsWrittenBound(p.0, p.1, jobs, n - 1, trial);
    }
    RangeCard(r.1, workers);
  }

  /**
    The discrepancy on the setting of `SingleReferenceScenario`: one worker,
    two levels, `R1` scoring 0.9 at every attempt. As written the level-2 job
    dies on the removed copy, so `R1` is in the table once, not twice.
   */
  lemma {:induction false} CopyRemovedScenario()
    ensures var trial := (l: nat, k: nat) => Trial(true, (i: nat) => Some(0.9), false);
      var after := LevelsAsWritten(Engine([], [], map[], false), [[SubclipRow(7, "R1")]], 1, 2, trial);
      after.0.table == [ScoreRow("R1", 7, 0.9)] && after.1 == {0}
  {
    var trial := (l: nat, k: nat) => Trial(true, (i: nat) => Some(0.9), false);
    var db := [[SubclipRow(7, "R1")]];
    var st0 := Engine([], [], map[], false);
    assert Collected(db) == Collected(db[..0]) + Newest(db[0]);
    assert Batch(db) == [Candidate(7, "R1")];
    assert FirstScore(trial(0, 0).compare, 0) == Some(0.9);
    var q := Queued(Batch(db), 1)[..1];
    assert q == [Some(Candidate(7, "R1"))];
    assert q[..0] == [];
    var p1 := LevelsAsWritten(st0, db, 1, 1, trial);
    assert p1 == ProcessAsWritten(st0, {}, q, 0, trial);
    assert ProcessAsWritten(st0, {}, q[..0], 0, trial) == (st0, {});
    assert p1 == WorkedAsWritten(st0, {}, 0, Some(Candidate(7, "R1")), trial(0, 0));
    assert Worked(st0, Some(Candidate(7, "R1")), trial(0, 0)) == Recorded(st0, Candidate(7, "R1"), 0.9);
    assert p1.0 == Engine([ScoreRow("R1", 7, 0.9)], ["R1"], map["R1" := 0.9], false);
    assert p1.1 == {0} by {
      assert p1.1 == {} + {0};
    }
    var p2 := LevelsAsWritten(st0, db, 1, 2, trial);
    assert p2 == ProcessAsWritten(p1.0, p1.1, q, 1, trial);
    assert ProcessAsWritten(p1.0, p1.1, q[..0], 1, trial) == p1;
    assert p2 == WorkedAsWritten(p1.0, p1.1, 0, Some(Candidate(7, "R1")), trial(1, 0));
  }

  /**
    The best hash is chosen over all of `local_score`, which outlives the
    job: here the only row of this job names speaker 2 with the hash "new",
    yet the reported evidence is "old", scored in an earlier job.
   */
  lemma {:induction false} EvidenceFromEarlierJob()
    ensures var st := Engine([ScoreRow("new", 2, 0.5)], ["old", "new"], map["old" := 0.9, "new" := 0.5], false);
      Consistent(st) && Decision(st, 0.25).0 == Decided("old", 2, 0.9, true)
  {
    var st := Engine([ScoreRow("new", 2, 0.5)], ["old", "new"], map["old" := 0.9, "new" := 0.5], false);
    assert "old" != "new";
    assert Consistent(st);
    var r := Decision(st, 0.25);
    assert CountFor(st.table, 2) == 1;
    assert forall sp :: CountFor(st.table, sp) > 0 ==> sp == 2;
    assert r.0.hash in st.scores && st.scores["old"] <= r.0.score;
  }

  /**
    One enrolled speaker `7` with the single reference `R1`, one worker, two
    levels, and every comparison giving 0.9 at the first attempt, in the
    corrected level loop where every worker's copy of the clip is there at
    every level (as written, see `CopyRemovedScenario`): both levels score
    `R1` (the table holds it twice, `local_score` once), and the decision
    names `R1` and speaker 7 with score 0.9 above the 0.25 threshold.
   */
  lemma {:induction false} SingleReferenceScenario()
    ensures var trial := (l: nat, k: nat) => Trial(true, (i: nat) => Some(0.9), false);
      var after := Levels(Engine([], [], map[], false), [[SubclipRow(7, "R1")]], 1, 2, trial);
      && after.table == [ScoreRow("R1", 7, 0.9), ScoreRow("R1", 7, 0.9)]
      && Decision(after, 0.25) == (Decided("R1", 7, 0.9, true), Engine([], ["R1"], map["R1" := 0.9], false))
  {
    var trial := (l: nat, k: nat) => Trial(true, (i: nat) => Some(0.9), false);
    var db := [[SubclipRow(7, "R1")]];
    var st0 := Engine([], [], map[], false);
    assert Collected(db) == Collected(db[..0]) + Newest(db[0]);
    assert Batch(db) == [Candidate(7, "R1")];
    assert FirstScore(trial(0, 0).compare, 0) == Some(0.9);
    assert FirstScore(trial(1, 0).compare, 0) == Some(0.9);
    var q := Queued(Batch(db), 1)[..1];
    assert q == [Some(Candidate(7, "R1"))];
    assert q[..0] == [];
    var st1 := Levels(st0, db, 1, 1, trial);
    assert st1 == LevelRun(st0, Batch(db), 1, 0, trial);
    assert st1 == Engine([ScoreRow("R1", 7, 0.9)], ["R1"], map["R1" := 0.9], false);
    var st2 := Levels(st0, db, 1, 2, trial);
    assert st2 == LevelRun(st1, Batch(db), 1, 1, trial);
    assert st2 == Engine([ScoreRow("R1", 7, 0.9), ScoreRow("R1", 7, 0.9)], ["R1"], map["R1" := 0.9], false);
    var r := Decision(st2, 0.25);
    assert CountFor(st2.table, 7) == 2;
    assert CountFor(st2.table, r.0.speaker) > 0;
    assert r.0.speaker == 7 by {
      CountForPositive(st2.table, r.0.speaker);
    }
  }

  /** A speaker whose mean is strictly above every other speaker's is the one decided. */
  lemma {:induction false} StrictBestSpeakerDecided(st: Engine, threshold: real, sp: SpeakerId)
    requires Consistent(st) && !st.broken && CountFor(st.table, sp) > 0
    requires forall other :: CountFor(st.table, other) > 0 && other != sp ==> Mean(st.table, other) < Mean(st.table, sp)
    ensures Decision(st, threshold).0.Decided? && Decision(st, threshold).0.speaker == sp
  {
  }

  /** The key whose score is strictly above every other key's is the hash decided, with that score. */
  lemma {:induction false} StrictBestHashDecided(st: Engine, threshold: real, i: nat)
    requires Consistent(st) && !st.broken && st.table != [] && i < |st.keys|
    requires forall k :: 0 <= k < |st.keys| && k != i ==> st.scores[st.keys[k]] < st.scores[st.keys[i]]
    ensures Decision(st, threshold).0.Decided?
    ensures Decision(st, threshold).0.hash == st.keys[i] && Decision(st, threshold).0.score == st.scores[st.keys[i]]
    ensures Decision(st, threshold).0.prediction == (st.scores[st.keys[i]] > threshold)
  {
    var r := Decision(st, threshold).0;
    assert r.hash in st.keys;
  }

  /**
    Speaker 1 scores 0.9 and 0.8, speaker 2 scores 0.95 once: the mean of
    speaker 2 is the higher, so the decision names speaker 2, whatever the
    number of rows behind each mean.
   */
  lemma {:induction false} HigherMeanWins()
    ensures var st := Engine([ScoreRow("a", 1, 0.9), ScoreRow("b", 1, 0.8), ScoreRow("c", 2, 0.95)],
                             ["a", "b", "c"], map["a" := 0.9, "b" := 0.8, "c" := 0.95], false);
      Consistent(st) && Decision(st, 0.25).0 == Decided("c", 2, 0.95, true)
  {
    var st := Engine([ScoreRow("a", 1, 0.9), ScoreRow("b", 1, 0.8), ScoreRow("c", 2, 0.95)],
                     ["a", "b", "c"], map["a" := 0.9, "b" := 0.8, "c" := 0.95], false);
    HigherMeanConsistent();
    HigherMeanSpeaker();
    StrictBestSpeakerDecided(st, 0.25, 2);
    StrictBestHashDecided(st, 0.25, 2);
  }

  lemma {:induction false} HigherMeanConsistent()
    ensures Consistent(Engine([ScoreRow("a", 1, 0.9), ScoreRow("b", 1, 0.8), ScoreRow("c", 2, 0.95)],
                              ["a", "b", "c"], map["a" := 0.9, "b" := 0.8, "c" := 0.95], false))
  {
  }

  lemma {:induction false} HigherMeanSpeaker()
    ensures var t := [ScoreRow("a", 1, 0.9), ScoreRow("b", 1, 0.8), ScoreRow("c", 2, 0.95)];
      && CountFor(t, 2) > 0
      && forall other :: CountFor(t, other) > 0 && other != 2 ==> Mean(t, other) < Mean(t, 2)
  {
    var t := [ScoreRow("a", 1, 0.9), ScoreRow("b", 1, 0.8), ScoreRow("c", 2, 0.95)];
    assert CountFor(t, 2) == 1 && Mean(t, 2) == 0.95;
    forall other | CountFor(t, other) > 0 && other != 2
      ensures Mean(t, other) < Mean(t, 2)
    {
      CountForPositive(t, other);
      assert other == 1;
      assert Mean(t, 1) == 0.85;
    }
  }

  // ---------------------------------------------------------------------------
  // SFTP paths

  /**
    `get_subclip_from_sftp(hash)`: the remote file is the one `insert_subclip`
    stores for that hash, and the local copy goes to `tmp_audio_files/`, a
    folder apart from the one of the clip being identified.
   */
  function SubclipFromSftp(hash: Hash): (r: (string, string))
    ensures r.0 == DbFtpInterface.RemoteName(hash)
    ensures r.1 == "tmp_audio_files/" + hash + ".wav"
    ensures forall other :: r.1 != DbFtpInterface.SavedFile(other)
  {
    var local := "tmp_audio_files/" + hash + ".wav";
    assert forall other :: local[15] != DbFtpInterface.SavedFile(other)[15];
    (hash + ".wav", local)
  }

  /** Different hashes are fetched to different local files. */
  lemma {:induction false} FetchedFileInjective(a: Hash, b: Hash)
    requires SubclipFromSftp(a).1 == SubclipFromSftp(b).1
    ensures a == b
  {
    var pa := SubclipFromSftp(a).1;
    var pb := SubclipFromSftp(b).1;
    assert |a| == |b|;
    assert forall k :: 0 <= k < |a| ==> a[k] == pa[16 + k] && b[k] == pb[16 + k];
  }

  // ---------------------------------------------------------------------------
  // The object

  /** A `VoiceIdentification` instance: its settings, its analysis table, `local_score` and the broken flag. */
  class VoiceIdentification {
    const threshold: real
    const workers: nat
    const nLevel: nat
    var table: seq<ScoreRow>
    var scoreKeys: seq<Hash>
    var localScore: map<Hash, real>
    var broken: bool

    function State(): Engine
      reads this
    {
      Engine(table, scoreKeys, localScore, broken)
    }

    ghost predicate Valid()
      reads this
    {
      Consistent(State())
    }

    constructor (threshold: real, workers: nat, nLevel: nat)
      ensures Valid() && State() == Engine([], [], map[], false)
      ensures this.threshold == threshold && this.workers == workers && this.nLevel == nLevel
    {
      this.threshold := threshold;
      this.workers := workers;
      this.nLevel := nLevel;
      table := [];
      scoreKeys := [];
      localScore := map[];
      broken := false;
    }

    /** `batch_worker` for the entry its one `q.get()` returned. */
    method BatchWorker(job: Option<Candidate>, t: Trial)
      requires Valid()
      modifies this
      ensures Valid() && State() == Worked(old(State()), job, t)
    {
      if job.None? {
        return;
      }
      var c := job.value;
      if !t.fetched {
        return;
      }
      var score, tries := CompareWithRetry(t.compare);
      if score.None? {
        return;
      }
      if t.recordRaises {
        broken := true;
        return;
      }
      table := [ScoreRow(c.hash, c.speaker, score.value)] + table;
      if c.hash !in localScore {
        scoreKeys := scoreKeys + [c.hash];
      }
      localScore := localScore[c.hash := score.value];
    }

    /** One level: the queue is filled with the batch and one `None` per worker, and each worker takes one entry. */
    method RunLevel(batch: seq<Candidate>, level: nat, trial: (nat, nat) -> Trial)
      requires Valid()
      modifies this
      ensures Valid() && State() == LevelRun(old(State()), batch, workers, level, trial)
    {
      var queue := FillQueue(batch, workers);
      ghost var st0 := State();
      ghost var all := Queued(batch, workers);
      for w := 0 to workers
        invariant Valid()
        invariant queue == all[w..]
        invariant State() == Process(st0, all[..w], level, trial)
      {
        var job := queue[0];
        queue := queue[1..];
        assert job == all[w];
        ghost var done := all[..w + 1];
        assert done[..w] == all[..w] && done[w] == job;
        ProcessLast(st0, done, level, trial);
        BatchWorker(job, trial(level, w));
      }
    }

    /** The level loop of `identify_speaker`: `n_level` levels, each on a freshly built batch. */
    method RunLevels(db: seq<seq<SubclipRow>>, trial: (nat, nat) -> Trial)
      requires Valid()
      modifies this
      ensures Valid() && State() == Levels(old(State()), db, workers, nLevel, trial)
    {
      ghost var st0 := State();
      var level := 0;
      while level < nLevel
        invariant 0 <= level <= nLevel && Valid()
        invariant State() == Levels(st0, db, workers, level, trial)
      {
        ghost var before := State();
        var batch := BuildBatch(db);
        RunLevel(batch, level, trial);
        assert Levels(st0, db, workers, level + 1, trial) == LevelRun(before, batch, workers, level, trial);
        level := level + 1;
      }
    }

    /**
      The end of `identify_speaker`: 101 on a broken instance, otherwise the
      aggregation, the storing of the clip under the chosen speaker with the
      best hash as its `evaluated_by`, and the emptying of the table.
     */
    method Decide(subclip: DbFtpInterface.Subclip, user: int)
      returns (outcome: Outcome, stored: Option<DbFtpInterface.Stored>)
      requires Valid()
      modifies this
      ensures Valid()
      ensures (outcome, State()) == Decision(old(State()), threshold)
      ensures stored == if outcome.Decided?
                        then Some(DbFtpInterface.InsertSubclip(subclip, user, outcome.speaker, outcome.hash))
                        else None
    {
      stored := None;
      if broken {
        outcome := Failed101;
        return;
      }
      if table == [] {
        outcome := AggregationRaised;
        return;
      }
      var speaker := BestSpeaker(table);
      assert table[0].hash in scoreKeys;
      var best := BestIndex(scoreKeys, localScore);
      var hash := scoreKeys[best];
      stored := Some(DbFtpInterface.InsertSubclip(subclip, user, speaker, hash));
      table := [];
      outcome := Decided(hash, speaker, localScore[hash], localScore[hash] > threshold);
    }

    /**
      `identify_speaker(subclip, user, timestamp_at_start)`: the levels, then
      the decision, with `insert_subclip` given the four arguments it takes.
     */
    method IdentifySpeaker(subclip: DbFtpInterface.Subclip, user: int, timestampAtStart: string,
                           db: seq<seq<SubclipRow>>, trial: (nat, nat) -> Trial)
      returns (outcome: Outcome, stored: Option<DbFtpInterface.Stored>)
      requires Valid()
      modifies this
      ensures Valid()
      ensures (outcome, State()) == Decision(Levels(old(State()), db, workers, nLevel, trial), threshold)
      ensures stored == if outcome.Decided?
                        then Some(DbFtpInterface.InsertSubclip(subclip, user, outcome.speaker, outcome.hash))
                        else None
    {
      RunLevels(db, trial);
      outcome, stored := Decide(subclip, user);
    }
  }
}
