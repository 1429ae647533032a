/**
  A worker node's intake: the `/job` handler `addspeaker`, which parses the
  recording-start timestamp and the wav payload text and puts
  `[clip_hash, timestamp_at_start]` on `local_job_queue`, and the consumer
  `dedicated_thread`, which takes one job at a time from that queue. Writing
  the wav file, hashing it and running the job are outside the model; the
  clip hash is given.
 */
module Node {
  import opened PyStr

  /** `value.split('/')[-1].split('.')[0]` (also the handler of the websocket server). */
  function TimestampAtStart(value: string): string
  {
    Split(Last(Split(value, '/')), '.')[0]
  }

  /**
    The extracted timestamp is the text after the last `/`, up to but not
    including the first `.` after it: the input is `before + r + after` where
    `before` is empty or ends with `/`, nothing after it is a `/`, `after` is
    empty or starts with `.`, and `r` holds neither `/` nor `.`.
   */
  lemma {:induction false} TimestampShape(value: string) returns (before: string, after: string)
    ensures value == before + TimestampAtStart(value) + after
    ensures before == [] || before[|before| - 1] == '/'
    ensures '/' !in TimestampAtStart(value) && '/' !in after
    ensures after == [] || after[0] == '.'
    ensures '.' !in TimestampAtStart(value)
  {
    var tail := Last(Split(value, '/'));
    before := SplitLastIsSuffix(value, '/');
    after := SplitFirstIsPrefix(tail, '.');
    assert value == before + (TimestampAtStart(value) + after);
    assert '/' !in tail;
    assert forall k :: 0 <= k < |after| ==> after[k] == tail[|tail| - |after| + k];
  }

  /** A value with neither `/` nor `.` is its own timestamp. */
  lemma {:induction false} TimestampOfPlainValue(value: string)
    requires '/' !in value && '.' !in value
    ensures TimestampAtStart(value) == value
  {
    SplitWithoutSeparator(value, '/');
    SplitWithoutSeparator(value, '.');
  }

  const Brackets: set<char> := {'[', ']'}

  /** `request.values['wav'].strip("[]").split(',')`: the sample texts. */
  function WavFields(payload: string): seq<string>
  {
    Split(Strip(payload, Brackets), ',')
  }

  /**
    The payload is cut into one more field than the stripped text has commas,
    no field holds a comma, and joining the fields with `,` gives back the
    stripped text.
   */
  lemma {:induction false} WavFieldsRejoin(payload: string)
    ensures |WavFields(payload)| == Count(Strip(payload, Brackets), ',') + 1
    ensures forall i :: 0 <= i < |WavFields(payload)| ==> ',' !in WavFields(payload)[i]
    ensures Join(WavFields(payload), ',') == Strip(payload, Brackets)
  {
    JoinSplit(Strip(payload, Brackets), ',');
  }

  /** The jobs on the queue are the two-element lists `addspeaker` puts there. */
  ghost predicate WellFormedJobs(items: seq<seq<string>>)
  {
    forall k :: 0 <= k < |items| ==> |items[k]| == 2
  }

  /** `local_job_queue`: a FIFO of jobs. */
  class JobQueue {
    var items: seq<seq<string>>

    constructor ()
      ensures items == []
    {
      items := [];
    }

    /** `put(job)`. */
    method Put(job: seq<string>)
      modifies this
      ensures items == old(items) + [job]
    {
      items := items + [job];
    }

    /** `get()` once a job is there (on an empty queue the consumer waits). */
    method Get() returns (job: seq<string>)
      requires items != []
      modifies this
      ensures job == old(items)[0] && items == old(items)[1..]
    {
      job := items[0];
      items := items[1..];
    }
  }

  /**
    `np.array(wav_float_32, dtype=np.float32)` succeeds: `isFloat` says
    whether numpy reads one sample text as a number (Python's `float` syntax),
    and one text it cannot read raises ValueError.
   */
  predicate Converts(payload: string, isFloat: string -> bool)
  {
    forall i :: 0 <= i < |WavFields(payload)| ==> isFloat(WavFields(payload)[i])
  }

  /**
    A payload made of brackets only, such as `"[]"`, strips to the empty text,
    whose one field is empty; since an empty text is no number the conversion
    raises.
   */
  lemma {:induction false} BracketOnlyPayloadFails(payload: string, isFloat: string -> bool)
    requires forall k :: 0 <= k < |payload| ==> payload[k] in Brackets
    requires !isFloat("")
    ensures WavFields(payload) == [""] && !Converts(payload, isFloat)
  {
    var i, j := StripBounds(payload, Brackets);
    assert Strip(payload, Brackets) == [];
    assert WavFields(payload)[0] == "";
  }

  /**
    `addspeaker()`: the payload is cut into its sample texts and converted to
    float32 for the wav file; a text that is no number raises ValueError and
    ends the handler before anything is enqueued. Otherwise, after the upload
    is saved and hashed, `[clip_hash, timestamp_at_start]` is enqueued.
   */
  method AddSpeaker(queue: JobQueue, wav: string, timestamp: string, clipHash: string, isFloat: string -> bool)
    returns (samples: seq<string>, enqueued: bool)
    modifies queue
    ensures samples == WavFields(wav)
    ensures enqueued == Converts(wav, isFloat)
    ensures queue.items == if enqueued then old(queue.items) + [[clipHash, TimestampAtStart(timestamp)]] else old(queue.items)
    ensures WellFormedJobs(old(queue.items)) ==> WellFormedJobs(queue.items)
  {
    var stripped := Strip(wav, Brackets);
    samples := Split(stripped, ',');
    enqueued := forall i :: 0 <= i < |samples| ==> isFloat(samples[i]);
    if !enqueued {
      return;
    }
    var timestampAtStart := TimestampAtStart(timestamp);
    queue.Put([clipHash, timestampAtStart]);
  }

  /** One turn of `dedicated_thread`: the oldest job, read as `job[0]` (hash) and `job[1]` (timestamp). */
  method TakeJob(queue: JobQueue) returns (clipHash: string, timestampAtStart: string)
    requires queue.items != [] && WellFormedJobs(queue.items)
    modifies queue
    ensures clipHash == old(queue.items)[0][0] && timestampAtStart == old(queue.items)[0][1]
    ensures queue.items == old(queue.items)[1..] && WellFormedJobs(queue.items)
  {
    var job := queue.Get();
    clipHash := job[0];
    timestampAtStart := job[1];
  }

  /**
    Jobs put one after another come out one at a time in the order they went
    in, each read back as the hash and timestamp it was put with.
   */
  method ServeInOrder(jobs: seq<(string, string)>) returns (served: seq<(string, string)>)
    ensures served == jobs
  {
    var queue := new JobQueue();
    var i := 0;
    while i < |jobs|
      invariant 0 <= i <= |jobs|
      invariant |queue.items| == i && WellFormedJobs(queue.items)
      invariant forall k :: 0 <= k < i ==> queue.items[k] == [jobs[k].0, jobs[k].1]
    {
      queue.Put([jobs[i].0, jobs[i].1]);
      i := i + 1;
    }
    served := [];
    while |served| < |jobs|
      invariant |served| <= |jobs| && served == jobs[..|served|]
      invariant |queue.items| == |jobs| - |served| && WellFormedJobs(queue.items)
      invariant forall k :: 0 <= k < |queue.items| ==> queue.items[k] == [jobs[|served| + k].0, jobs[|served| + k].1]
    {
      var clipHash, timestampAtStart := TakeJob(queue);
      served := served + [(clipHash, timestampAtStart)];
    }
  }
}
