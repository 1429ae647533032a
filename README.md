# Speaker-identification backend: Dafny model of the core

This project models the sequential core of a backend that routes short audio
clips to worker nodes and, on each node, identifies the speaker by comparing
the clip with enrolled reference subclips. Five parts are modelled:

- **Node registry** (`NodeManager`, node_manager.py). The dict `final` is
  updated by `check_port` only when the connect code is 0. `get_status`
  serves it unchanged. The registry is a class over a `map` plus the dict's
  insertion order.
- **Dispatcher** (`NodeMixer`, node_mixer.py). The busy list `node_busy` is a
  class field:
  - `job_from_api` appends and posts to every node in the registry snapshot
    that is fresh (20 s or less) and not busy;
  - `unbusy` removes the first occurrence of an address.
- **Node intake** (`Node`, node.py). The recording-start timestamp is cut out
  of the request value (the same expression is at wss_server.py:38). The wav
  payload is stripped and split. The `[hash, timestamp]` jobs go through a
  FIFO queue class.
- **Subclip insertion** (`DbFtpInterface`, dbftpinterface.py). This covers
  the FTP file names, the doubling of single quotes in the `segment_json`
  literal, and the insert statement. A reader for that statement shows that
  the five values come back out in order.
- **Identification engine** (`VoiceBatch` and `VoiceIdentification`,
  stage2_voic_iden.py), made of five parts:
  - the per-level batch builder, with at most three newest references per
    speaker placed by `list.insert(1, …)`;
  - the level loop, whose queue holds the batch followed by one `None` per
    worker, and where each worker does a single `get`;
  - the 5-try comparison retry;
  - score recording: a row is prepended to the table and `local_score` is
    overwritten;
  - the decision: 101 on a broken instance, otherwise the best mean speaker,
    the best single hash by a stable sort, and `score > threshold`.

`PyStr` models the Python string built-ins that the code relies on: `split`,
`join`, `strip`, `count`, `f"{n}"` and `int(…)`. `Wrappers` holds an `Option`
type.

The following are inputs to the model:
- network, database and model calls:
  - the probe result;
  - the registry snapshot the mixer receives, in its iteration order;
  - the per-speaker subclip rows;
  - the outcome of each fetch and comparison attempt (`Trial`);
- the clock, as integer seconds, read once per snapshot entry;
- the sha256 clip hash;
- the JSON text of the segment metadata.

The worker pool runs sequentially: the `k`-th `get` of a level is served by
worker `k`.

Behaviour worth noting, each item as the code does it:
- `unbusy` on an address that is not busy raises `ValueError` at
  node_mixer.py:39. The model returns `ok == false` and leaves the list
  unchanged.
- `job_from_api` posts to every eligible node of the snapshot in one call,
  not to the first one only (node_mixer.py:24-34). The clock is read again
  for every entry, after the blocking posts to the earlier ones.
- An empty table at decision time makes the aggregation raise: the grouped
  mean of an empty frame is an empty frame, and `sort_values` without `by`
  raises TypeError (stage2_voic_iden.py:156-164). Nothing changes and there
  is no "unknown speaker" result.
- The analysis table may hold the same hash several times, one row per level
  that scored it (stage2_voic_iden.py:243-246). Only `local_score` keeps one
  entry per hash.
- Ties between speakers' means are broken by no rule the code promises
  (stage2_voic_iden.py:162-164), so the contracts promise only a maximal
  mean. Ties between hashes' scores go to the earliest key, by the stable
  sort at stage2_voic_iden.py:167.

## Model

| member | source | states |
|---|---|---|
| `PyStr.Split` | node.py:54 | `split(',')` gives count(sep)+1 fields, none containing the separator, with no character outside the input |
| `PyStr.JoinSplit` | node.py:54 | joining the split fields with the separator gives back the text |
| `PyStr.SplitJoin` | node.py:54 | splitting a join of separator-free fields gives back the fields |
| `PyStr.StripBounds` | node.py:54 | `strip("[]")` keeps one contiguous piece. Only bracket characters are cut from either end. The piece neither starts nor ends with a bracket. An all-bracket text strips to empty |
| `PyStr.ParseDecimalOfDecimal` | node_manager.py:48 | `int(f"{n}") == n` for the `last_seen` text |
| `PyStr.ParseIntOfIntText` | dbftpinterface.py:81 | the integer fields of the query text read back as the integers written |
| `NodeManager.Probed` | node_manager.py:45-50 | only connect code 0 writes. The write replaces `final[ip]` wholesale, and `last_seen` reads back as the probe time. Every other address keeps its record. Any other code or an exception leaves `final` unchanged |
| `NodeManager.ProbeRunKeepsLastWrite` | node_manager.py:45-50 | after any run of probes, an address is present exactly when it was before or some probe of it connected. It holds the last successful write: nothing is deleted or lost |
| `NodeManager.Registry.constructor` | node_manager.py:20 | the registry starts empty |
| `NodeManager.Registry.CheckPort` | node_manager.py:23-58 | the in-place update equals `Probed` on the old dict. A newly seen address is appended to the key order |
| `NodeManager.Registry.Status` | node_manager.py:143-153 | `get_status` returns every record of `final` as it is, once each, with distinct addresses |
| `NodeMixer.FreshBoundary` | node_mixer.py:25-26 | the staleness bound is inclusive at 20 s. A `last_seen` in the future is fresh |
| `NodeMixer.ProbedNodeEligible` | node_mixer.py:24-26 | a node written by a successful probe at time t is eligible exactly when it is not busy and `now - t <= 20`, for the clock reading `now` taken at its entry |
| `NodeMixer.EligibleNodes` | node_mixer.py:24-31 | the reference rule, each entry judged at its own clock reading. Every selected node is a snapshot key that was not busy |
| `NodeMixer.EligibleNodesSound` | node_mixer.py:24-31 | every selected node is the key of a snapshot entry that is idle and fresh at the clock reading of that entry |
| `NodeMixer.EligibleNodesComplete` | node_mixer.py:24-26 | every snapshot entry that is idle and fresh at its own clock reading is selected: there is no break |
| `NodeMixer.DispatchMatchesEligible` | node_mixer.py:24-34 | with the clock re-read for every entry, and without an exception, `job_from_api` appends and posts to exactly the eligible nodes, in snapshot order. An exception leaves a prefix of them appended. A node whose post raised stays busy |
| `NodeMixer.DispatchStopsAfterFailure` | node_mixer.py:24-34 | once an exception ends the loop, later snapshot entries change nothing |
| `NodeMixer.EligibleKeepsDistinct` | node_mixer.py:25-31 | a duplicate-free busy list stays duplicate-free after the appends |
| `NodeMixer.Mixer.constructor` | node_mixer.py:15 | the busy list starts empty |
| `NodeMixer.Mixer.JobFromApi` | node_mixer.py:22-34 | each entry is judged against the clock reading taken when the loop reaches it. The new busy list is the old one, unchanged, followed by the appended nodes. The nodes posted to and the exception are those of `DispatchRun` |
| `NodeMixer.Mixer.Unbusy` | node_mixer.py:37-40 | removes the first occurrence of a busy address. An absent address is an error that changes nothing |
| `NodeMixer.RemoveFirstShape` | node_mixer.py:39 | `remove` deletes exactly the first occurrence and keeps the rest in order |
| `NodeMixer.RemoveFirstFrees` | node_mixer.py:39 | on a duplicate-free busy list, the removed address is no longer busy and the list stays duplicate-free |
| `Node.TimestampShape` | node.py:57 | the timestamp is the text after the last `/`, up to its first `.`. It holds neither `/` nor `.` |
| `Node.TimestampOfPlainValue` | node.py:57 | a value with neither `/` nor `.` is returned unchanged |
| `Node.WavFieldsRejoin` | node.py:54 | the payload gives count(',')+1 comma-free fields. Joined with `,` they rebuild the stripped text |
| `Node.JobQueue.constructor` | node.py:44 | the job queue starts empty |
| `Node.JobQueue.Put` | node.py:68 | `put` appends the job at the back |
| `Node.JobQueue.Get` | node.py:81 | `get` takes the front job |
| `Node.AddSpeaker` | node.py:47-71 | the handler's samples are the strip/split of the payload. It enqueues `[clip_hash, timestamp_at_start]` at the back exactly when every sample text converts to a float. Otherwise the conversion raises and the queue is unchanged |
| `Node.BracketOnlyPayloadFails` | node.py:54-55 | a payload of brackets only, such as `[]`, splits into one empty field, which does not convert, so nothing is enqueued |
| `Node.TakeJob` | node.py:81-83 | the consumer reads the oldest job: `job[0]` as the hash and `job[1]` as the timestamp |
| `Node.ServeInOrder` | node.py:68-83 | jobs come out one at a time in FIFO order, each with the hash and timestamp it was put with |
| `DbFtpInterface.Escape` | dbftpinterface.py:78-82 | the escaped length is the original length plus the number of `'` |
| `DbFtpInterface.UnescapeEscape` | dbftpinterface.py:78-82 | collapsing each `''` back to `'` recovers the original text |
| `DbFtpInterface.EscapeKeepsOtherCharacters` | dbftpinterface.py:78-82 | every character other than `'` is kept, in order |
| `DbFtpInterface.EscapedQuoteRunsEven` | dbftpinterface.py:82 | every maximal run of `'` in the escaped text has even length |
| `DbFtpInterface.ReadEscaped` | dbftpinterface.py:82 | an SQL reader stops at the builder's closing quote and returns the unescaped text |
| `DbFtpInterface.SavedFileInjective` | dbftpinterface.py:72-75 | distinct hashes never share a local file |
| `DbFtpInterface.ParseInsertQuery` | dbftpinterface.py:80-82 | the query carries hash, evaluated_by, first_username, speaker and segment_json in that order. The segment value is `[` + JSON + `]` whatever quotes the JSON holds |
| `DbFtpInterface.InsertSubclip` | dbftpinterface.py:53-82 | the file stored is `hash + ".wav"`, uploaded from and removed at `tmp_audio_files_save/<hash>.wav`. The query reads back as the five values |
| `VoiceBatch.ArrangementSnoc` | stage2_voic_iden.py:292 | one more `insert(1, x)` keeps the [first, last, …, second] arrangement |
| `VoiceBatch.BuildBatch` | stage2_voic_iden.py:279-295 | the nested loops with `insert(1, …)` and the swallowed IndexError build exactly the arrangement of the collected pairs |
| `VoiceBatch.ArrangementOrder` | stage2_voic_iden.py:290-294 | the batch is a permutation of the inserted pairs. The first pair stays at index 0 and index j ≥ 1 holds the j-th pair from the end |
| `VoiceBatch.BatchLength` | stage2_voic_iden.py:286-294 | the batch length is the sum over speakers of min(3, rows) |
| `VoiceBatch.PerSpeakerCap` | stage2_voic_iden.py:286-294 | each speaker contributes exactly min(3, its rows) pairs, so at most three |
| `VoiceBatch.BatchEntriesAreNewestRows` | stage2_voic_iden.py:287-292 | every batch entry is one of the first three rows of some speaker's id-descending list, with that row's speaker column |
| `VoiceIdentification.FirstScoreIsFirstSuccess` | stage2_voic_iden.py:216-222 | the retry yields a score exactly when one of the five attempts succeeds. The score is that of the first success |
| `VoiceIdentification.CompareWithRetry` | stage2_voic_iden.py:215-222 | at most five attempts, stopping at the first success. Every earlier attempt failed. No score means all five failed |
| `VoiceIdentification.Recorded` | stage2_voic_iden.py:235-247 | a scored pair prepends one row and overwrites `local_score[hash]`. The key keeps its place if present. Nothing else changes |
| `VoiceIdentification.Worked` | stage2_voic_iden.py:199-257 | a `None` entry, a failed fetch or five failed attempts record nothing. A RuntimeError while recording sets only the broken flag. Otherwise the score is recorded |
| `VoiceIdentification.VoiceIdentification.constructor` | stage2_voic_iden.py:40-56 | empty table, empty `local_score`, flag clear, and the given settings |
| `VoiceIdentification.VoiceIdentification.BatchWorker` | stage2_voic_iden.py:183-257 | the worker's update of the instance equals `Worked` |
| `VoiceIdentification.FillQueue` | stage2_voic_iden.py:133-141 | the fresh queue holds every batch entry in batch order, followed by exactly one `None` per worker |
| `VoiceIdentification.VoiceIdentification.RunLevel` | stage2_voic_iden.py:112-149 | the queue is filled with the batch then one `None` per worker, and each worker does one `get`. The new state is `LevelRun` |
| `VoiceIdentification.VoiceIdentification.RunLevels` | stage2_voic_iden.py:110-149 | exactly `n_level` levels, the batch rebuilt at each |
| `VoiceIdentification.LevelTakesFirst` | stage2_voic_iden.py:133-141 | a level scores exactly the first min(W, batch length) batch entries, in queue order |
| `VoiceIdentification.ProcessTable` | stage2_voic_iden.py:243-246 | over a level the table only gains rows, in front |
| `VoiceIdentification.NewRowsFromJobs` | stage2_voic_iden.py:235-246 | at most one row per dequeued entry, each row holding that entry's pair |
| `VoiceIdentification.NewRowsAllScored` | stage2_voic_iden.py:243-246 | when every entry is scored, the new rows are those entries' rows from last to first |
| `VoiceIdentification.ProcessKeys` | stage2_voic_iden.py:247 | `local_score` keeps every key in its place. Keys are only appended |
| `VoiceIdentification.ProcessBroken` | stage2_voic_iden.py:251-256 | the flag is never reset. Over a level it is set exactly when some entry's recording raised |
| `VoiceIdentification.LevelBroken` | stage2_voic_iden.py:133-149 | one level sets the flag exactly when it was set or one of the first min(W, batch length) pairs raised while recording |
| `VoiceIdentification.BrokenOnlyByRecording` | stage2_voic_iden.py:251-256 | after the levels, the flag is set exactly when it was already set or some dequeued pair's recording raised |
| `VoiceIdentification.RaisedBeforeMeans` | stage2_voic_iden.py:110-149 | "raised in some level" means some level below n and some entry below m whose recording raised |
| `VoiceIdentification.CountForPositive` | stage2_voic_iden.py:156-157 | a speaker has a group in the groupby exactly when some row carries it |
| `VoiceIdentification.BestAmong` | stage2_voic_iden.py:162-164 | the speaker chosen among candidates has a mean no lower than any candidate's |
| `VoiceIdentification.BestSpeaker` | stage2_voic_iden.py:156-164 | the chosen speaker has at least one row, and its mean is at least every other speaker's mean |
| `VoiceIdentification.BestIndex` | stage2_voic_iden.py:167 | the best hash has the maximal score in `local_score`. Every key inserted before it scores strictly lower (stable sort, reverse) |
| `VoiceIdentification.Decision` | stage2_voic_iden.py:151-181 | a broken flag gives 101 and changes nothing, and an empty table raises. Otherwise the result has the best-mean speaker and the earliest maximal hash with its score. The prediction is score > threshold (strict). The table is emptied and `local_score` kept |
| `VoiceIdentification.StrictBestSpeakerDecided` | stage2_voic_iden.py:156-164 | a speaker whose mean is strictly above every other speaker's is the speaker decided |
| `VoiceIdentification.StrictBestHashDecided` | stage2_voic_iden.py:167-181 | a key whose score is strictly above every other key's is the hash decided, with that score and the prediction score > threshold |
| `VoiceIdentification.DecisionAsWritten` | stage2_voic_iden.py:173-175 | as written, the five-argument call raises TypeError. No decision is returned and the table keeps its rows |
| `VoiceIdentification.AsWrittenNeverDecides` | stage2_voic_iden.py:173-178 | whenever a score was recorded, the as-written decision fails and leaves the rows, while the corrected one decides and empties the table |
| `VoiceIdentification.EvidenceFromEarlierJob` | stage2_voic_iden.py:167 | `local_score` outlives a job, so the evidence hash may come from an earlier job and need not belong to the chosen speaker |
| `VoiceIdentification.WorkedAsWritten` | stage2_voic_iden.py:199-257 | as written, a worker past its fetch removes its copy of the clip (line 234). A worker whose copy is already gone records nothing |
| `VoiceIdentification.ProcessAsWritten` | stage2_voic_iden.py:133-149 | as written, the `k`-th job of a level is served by worker `k`, with the copies removed so far |
| `VoiceIdentification.LevelsAsWritten` | stage2_voic_iden.py:95-149 | as written, the copies are made once before the level loop and never again |
| `VoiceIdentification.AsWrittenRecordsOncePerWorker` | stage2_voic_iden.py:199-257 | as written, every removed copy belongs to a worker below W, and the table gains at most one row per removed copy, so at most W rows over all levels |
| `VoiceIdentification.CopyRemovedScenario` | stage2_voic_iden.py:95-257 | as written, one worker, two levels and one reference scored 0.9 leave R1 in the table once, not twice |
| `VoiceIdentification.SingleReferenceScenario` | stage2_voic_iden.py:110-181 | with every worker's copy present at every level, one reference R1 scored 0.9 over two levels is in the table twice and in `local_score` once. The decision is (R1, its speaker, 0.9, true) at threshold 0.25 |
| `VoiceIdentification.HigherMeanWins` | stage2_voic_iden.py:156-164 | speaker A with [0.9, 0.8] loses to speaker B with [0.95] |
| `VoiceIdentification.SubclipFromSftp` | stage2_voic_iden.py:274-277 | the remote name is the one `insert_subclip` stores for the hash. The local copy goes under `tmp_audio_files/`, never onto a saved-subclip path |
| `VoiceIdentification.FetchedFileInjective` | stage2_voic_iden.py:274-277 | distinct hashes are fetched to distinct local files |
| `VoiceIdentification.VoiceIdentification.Decide` | stage2_voic_iden.py:151-181 | the instance's decision and new state equal `Decision`. The subclip is stored with the chosen speaker and the best hash as `evaluated_by` exactly when a decision is made |
| `VoiceIdentification.VoiceIdentification.IdentifySpeaker` | stage2_voic_iden.py:59-181 | `identify_speaker` runs the levels and then the decision. It calls `insert_subclip` with the four arguments the method takes |

## Left out

- HTTP plumbing is not modelled: the Flask/waitress routes, `requests` calls and response codes. Only the data updates inside the handlers are modelled. The mixer's snapshot arrives as an input sequence of distinct addresses in iteration order, because the JSON encoding may reorder keys.
- Socket probing, the per-address thread fan-out, `display_table` and the infinite `main_job` loop of node_manager.py are left out. They are I/O and scheduling. A probe enters as its connect code, or as an exception.
- Threads, semaphores, blocking `queue.Queue` operations and joins are left out. The worker pool is sequential, so races between workers on the shared table are not modelled.
- The speaker-recognition model, Whisper/pydub cutting, sha256 and stage1_voic_diar.py are opaque library calls. Scores and hashes are inputs.
- MySQL, pandas and FTP access are left out: `read_sql`, `storbinary`, `sftp.get`, `create_speaker`. The rows per speaker are inputs. `InsertSubclip` gives the names and query text sent out, and executing them is not modelled.
- Floating point is not modelled: latency rounding, the float32 wav conversion and wav writing. Scores are `real`, and `local_score` values are taken as `float(score)`.
- VoiceIdentification.RunLevels / SingleReferenceScenario: `Trial` is not constrained by the removal of the per-worker copy at stage2_voic_iden.py:234. These members follow the corrected loop, where each worker's copy is there at every level. The loop as written is `LevelsAsWritten` (see Findings).
- VoiceIdentification.Levels / VoiceIdentification.VoiceIdentification.RunLevels: one `db` of per-speaker rows serves every level. The source re-runs the speaker and subclip queries at each level (stage2_voic_iden.py:121-122, 283-287), so rows inserted meanwhile by another process are not modelled.
- NodeMixer.DispatchRun / NodeMixer.Mixer.JobFromApi: the clock readings arrive as a function of the entry index. What they depend on (the time the posts take) is not modelled.
- Node.AddSpeaker: the float syntax that `np.array(…, dtype=np.float32)` accepts is a library rule, given as the input `isFloat`. The wav writing, the hashing and the file copy are not modelled.
- DbFtpInterface.ParseInsertQuery / ReadEscaped / InsertSubclip: the reader follows standard SQL quoting, where only a doubled `'` is an escape (MySQL's NO_BACKSLASH_ESCAPES mode). The server reached through `mysql.connector` (dbftpinterface.py:18) runs in MySQL's default mode, which also decodes backslash escapes. JSON from `json.dumps` holding `\uXXXX`, `\"` or `\\` is therefore stored altered. The read-back is promised only for the standard reader.
- The deprecated `_get_batch_speaker_priority_on_check`, `WeightListType` and `get_speaker_from_hash` are never called and are not modelled.
- The signature mismatches between node.py and mainservice.py, and between api_called_functions.py and stage2_voic_iden.py, are not modelled. Neither are main.py, mainservice.py and test_wss_client.py. These are orchestration outside the core.
- PyStr.ParseDecimal: accepts only plain ASCII digit strings. Python's `int` also accepts surrounding whitespace, a sign and underscores, none of which `f"{n}"` produces.
- PyStr.Strip: takes the strip characters as a set, which is all `strip("[]")` needs.
- DbFtpInterface.ParseInsertQuery: requires the hash and evaluated_by values to contain no `"`, because the source puts them between double quotes without escaping. A hex digest never contains one.
- Node.JobQueue.Get: requires a non-empty queue, because the source's `get` blocks until a job arrives.

## Findings

| source | as written | input that shows it | evidently intended | confidence | as-written member | corrected member |
|---|---|---|---|---|---|---|
| stage2_voic_iden.py:173-175 | `insert_subclip` is called with five arguments, ending in `timestamp_at_start`. dbftpinterface.py:53 declares four, so the call raises TypeError before the table is emptied and before anything is returned | any job whose flag is clear and which recorded at least one score, e.g. one reference scored 0.9 | call with the four declared arguments, empty the table and return the decision | medium, not executed: the files mix interface versions. stage2_voic_iden.py:274 uses `backend_interface.sftp` and node.py:33-36 passes a port and `keepalive`, which the shipped dbftpinterface.py does not have, so the call may target a newer `insert_subclip` with five parameters. With the shipped file every fetch fails at line 274 and no score is ever recorded | `VoiceIdentification.DecisionAsWritten`, `VoiceIdentification.AsWrittenNeverDecides` | `VoiceIdentification.Decision` |
| stage2_voic_iden.py:234 | each worker's copy of the clip is made once, at lines 95-96 before the level loop, and removed by the worker's first job past its fetch. A later job of that worker raises FileNotFoundError at `os.remove`, which the `except RuntimeError` does not catch, so the thread ends with nothing recorded | one worker, two levels, one reference scored 0.9: the table holds R1 once | the copy is there for every level, so every dequeued pair can be scored | medium, not executed | `VoiceIdentification.LevelsAsWritten`, `VoiceIdentification.AsWrittenRecordsOncePerWorker`, `VoiceIdentification.CopyRemovedScenario` | `VoiceIdentification.Levels`, `VoiceIdentification.LevelTakesFirst`, `VoiceIdentification.SingleReferenceScenario` |
