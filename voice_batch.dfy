/**
  The batch builder of `VoiceIdentification`
  (`_get_batch_speaker_priority_on_check_simplified`): for every registered
  speaker, the hashes of its three newest subclips are placed in one list with
  `list.insert(1, …)`. The database answers are inputs: one list of rows per
  speaker of `SELECT * FROM speaker`, each in the order of
  `SELECT * FROM subclips WHERE speaker = … ORDER BY id desc`.
 */
module VoiceBatch {
  type Hash = string
  type SpeakerId = int

  /** The `speaker` and `hash` columns of one row of the subclips query. */
  datatype SubclipRow = SubclipRow(speaker: SpeakerId, hash: Hash)

  /** A batch entry, the tuple `(speaker_id, hash)`. */
  datatype Candidate = Candidate(speaker: SpeakerId, hash: Hash)

  /** References taken per speaker: the `[:3]` slices. */
  const PerSpeaker := 3

  function Min(a: int, b: int): int
  {
    if a <= b then a else b
  }

  /** Python's slice `s[:n]`, which stops early on a short list. */
  function Take<T>(s: seq<T>, n: nat): (r: seq<T>)
    ensures |r| == Min(n, |s|) && r == s[..|r|]
  {
    s[..Min(n, |s|)]
  }

  /** `df['hash'].tolist()`. */
  function HashColumn(rows: seq<SubclipRow>): (r: seq<Hash>)
    ensures |r| == |rows| && forall k :: 0 <= k < |rows| ==> r[k] == rows[k].hash
  {
    seq(|rows|, k requires 0 <= k < |rows| => rows[k].hash)
  }

  /** `df['speaker'].tolist()`. */
  function SpeakerColumn(rows: seq<SubclipRow>): (r: seq<SpeakerId>)
    ensures |r| == |rows| && forall k :: 0 <= k < |rows| ==> r[k] == rows[k].speaker
  {
    seq(|rows|, k requires 0 <= k < |rows| => rows[k].speaker)
  }

  /** The pairs one speaker contributes, in the order they are inserted: its first (newest) rows, at most three. */
  function Newest(rows: seq<SubclipRow>): (r: seq<Candidate>)
    ensures |r| == Min(PerSpeaker, |rows|)
    ensures forall k :: 0 <= k < |r| ==> r[k] == Candidate(rows[k].speaker, rows[k].hash)
  {
    seq(Min(PerSpeaker, |rows|), k requires 0 <= k < Min(PerSpeaker, |rows|) => Candidate(rows[k].speaker, rows[k].hash))
  }

  /** Every pair the builder inserts, in insertion order, speaker after speaker. */
  function Collected(db: seq<seq<SubclipRow>>): seq<Candidate>
  {
    if db == [] then [] else Collected(db[..|db| - 1]) + Newest(db[|db| - 1])
  }

  /** `l.insert(1, x)`: on an empty list the index is clamped and `x` is appended. */
  function InsertAt1<T>(l: seq<T>, x: T): seq<T>
  {
    l[..Min(1, |l|)] + [x] + l[Min(1, |l|)..]
  }

  function Reversed<T>(s: seq<T>): (r: seq<T>)
    ensures |r| == |s|
  {
    if s == [] then [] else [s[|s| - 1]] + Reversed(s[..|s| - 1])
  }

  /** Position `k` of the reversal holds position `|s| - 1 - k` of the original. */
  lemma {:induction false} ReversedAt<T>(s: seq<T>, k: nat)
    requires k < |s|
    ensures Reversed(s)[k] == s[|s| - 1 - k]
  {
    if k > 0 {
      ReversedAt(s[..|s| - 1], k - 1);
    }
  }

  /**
    The order `insert(1, …)` leaves: the first pair inserted stays in front,
    the others follow from the last inserted back to the second.
   */
  function Arrangement<T>(xs: seq<T>): seq<T>
  {
    if xs == [] then [] else [xs[0]] + Reversed(xs[1..])
  }

  /** The full batch for one level. */
  function Batch(db: seq<seq<SubclipRow>>): seq<Candidate>
  {
    Arrangement(Collected(db))
  }

  /** One more `insert(1, x)` keeps the list in that order. */
  lemma {:induction false} ArrangementSnoc<T>(xs: seq<T>, x: T)
    ensures InsertAt1(Arrangement(xs), x) == Arrangement(xs + [x])
  {
    if xs == [] {
      assert Arrangement([x]) == [x] + Reversed([]);
    } else {
      var ys := xs + [x];
      assert ys[0] == xs[0];
      assert ys[1..] == xs[1..] + [x];
      assert (xs[1..] + [x])[..|xs[1..]|] == xs[1..];
      assert Reversed(xs[1..] + [x]) == [x] + Reversed(xs[1..]);
    }
  }

  /**
    `_get_batch_speaker_priority_on_check_simplified(user)`: for each speaker,
    the `hash` and `speaker` columns cut to three, and `insert(1, …)` for the
    indices 0 to 4, an IndexError (a short list) skipping that index.
   */
  method BuildBatch(db: seq<seq<SubclipRow>>) returns (batch: seq<Candidate>)
    ensures batch == Batch(db)
  {
    batch := [];
    for s := 0 to |db|
      invariant batch == Arrangement(Collected(db[..s]))
    {
      var rows := db[s];
      var hashes := Take(HashColumn(rows), PerSpeaker);
      var ids := Take(SpeakerColumn(rows), PerSpeaker);
      ghost var done := Collected(db[..s]);
      ghost var mine := Newest(rows);
      ColumnsAreNewest(rows);
      assert done + mine[..Min(0, |mine|)] == done;
      for i := 0 to 5
        invariant batch == Arrangement(done + mine[..Min(i, |mine|)])
      {
        if i < |ids| && i < |hashes| {
          InsertStep(done, mine, i);
          batch := InsertAt1(batch, Candidate(ids[i], hashes[i]));
        }
      }
      assert mine[..Min(5, |mine|)] == mine;
      assert Collected(db[..s + 1]) == done + mine by {
        assert db[..s + 1][..s] == db[..s];
      }
    }
    assert db[..|db|] == db;
  }

  /** The two cut columns, read side by side, give the speaker's newest pairs. */
  lemma {:induction false} ColumnsAreNewest(rows: seq<SubclipRow>)
    ensures var hashes := Take(HashColumn(rows), PerSpeaker);
      var ids := Take(SpeakerColumn(rows), PerSpeaker);
      && |ids| == |hashes| == |Newest(rows)|
      && forall k :: 0 <= k < |ids| ==> Candidate(ids[k], hashes[k]) == Newest(rows)[k]
  {
  }

  lemma {:induction false} InsertStep(done: seq<Candidate>, mine: seq<Candidate>, i: nat)
    requires i < |mine|
    ensures InsertAt1(Arrangement(done + mine[..i]), mine[i]) == Arrangement(done + mine[..i + 1])
  {
    ArrangementSnoc(done + mine[..i], mine[i]);
    assert mine[..i + 1] == mine[..i] + [mine[i]];
    assert done + mine[..i + 1] == done + mine[..i] + [mine[i]];
  }

  lemma {:induction false} ReversedMultiset<T>(s: seq<T>)
    ensures multiset(Reversed(s)) == multiset(s)
  {
    if s != [] {
      ReversedMultiset(s[..|s| - 1]);
      assert s == s[..|s| - 1] + [s[|s| - 1]];
    }
  }

  /**
    The batch is a rearrangement of the inserted pairs: the first one stays at
    index 0 and index `j >= 1` holds the pair inserted `j`-th from the end,
    so the list reads [first, last, …, second].
   */
  lemma {:induction false} ArrangementOrder<T>(xs: seq<T>)
    ensures |Arrangement(xs)| == |xs|
    ensures multiset(Arrangement(xs)) == multiset(xs)
    ensures xs != [] ==> Arrangement(xs)[0] == xs[0]
    ensures forall j :: 1 <= j < |xs| ==> Arrangement(xs)[j] == xs[|xs| - j]
  {
    if xs != [] {
      ReversedMultiset(xs[1..]);
      assert xs == [xs[0]] + xs[1..];
      forall j | 1 <= j < |xs| ensures Arrangement(xs)[j] == xs[|xs| - j] {
        ReversedAt(xs[1..], j - 1);
      }
    }
  }

  /** Sum over the speakers of min(3, number of rows). */
  function Total(db: seq<seq<SubclipRow>>): nat
  {
    if db == [] then 0 else Total(db[..|db| - 1]) + Min(PerSpeaker, |db[|db| - 1]|)
  }

  /** The batch has one entry for each of the (at most three) newest rows of every speaker. */
  lemma {:induction false} BatchLength(db: seq<seq<SubclipRow>>)
    ensures |Batch(db)| == Total(db)
  {
    CollectedLength(db);
    ArrangementOrder(Collected(db));
  }

  lemma {:induction false} CollectedLength(db: seq<seq<SubclipRow>>)
    ensures |Collected(db)| == Total(db)
  {
    if db != [] {
      CollectedLength(db[..|db| - 1]);
    }
  }

  /** Number of pairs of speaker `sp`. */
  function CountOf(cs: seq<Candidate>, sp: SpeakerId): nat
  {
    if cs == [] then 0 else (if cs[0].speaker == sp then 1 else 0) + CountOf(cs[1..], sp)
  }

  lemma {:induction false} CountAppend(a: seq<Candidate>, b: seq<Candidate>, sp: SpeakerId)
    ensures CountOf(a + b, sp) == CountOf(a, sp) + CountOf(b, sp)
  {
    if a == [] {
      assert a + b == b;
    } else {
      assert (a + b)[1..] == a[1..] + b;
      CountAppend(a[1..], b, sp);
    }
  }

  lemma {:induction false} CountReversed(s: seq<Candidate>, sp: SpeakerId)
    ensures CountOf(Reversed(s), sp) == CountOf(s, sp)
  {
    if s != [] {
      var init := s[..|s| - 1];
      CountReversed(init, sp);
      CountAppend([s[|s| - 1]], Reversed(init), sp);
      CountAppend(init, [s[|s| - 1]], sp);
      assert s == init + [s[|s| - 1]];
    }
  }

  lemma {:induction false} CountUniform(cs: seq<Candidate>, speaker: SpeakerId, sp: SpeakerId)
    requires forall k :: 0 <= k < |cs| ==> cs[k].speaker == speaker
    ensures CountOf(cs, sp) == if speaker == sp then |cs| else 0
  {
    if cs != [] {
      CountUniform(cs[1..], speaker, sp);
    }
  }

  /**
    The rows come from the per-speaker query: every row of the `s`-th list
    carries the `s`-th speaker id, and speaker ids are distinct.
   */
  ghost predicate WellFormed(speakers: seq<SpeakerId>, db: seq<seq<SubclipRow>>)
  {
    && |speakers| == |db|
    && (forall s, t :: 0 <= s < t < |speakers| ==> speakers[s] != speakers[t])
    && (forall s, k :: 0 <= s < |db| && 0 <= k < |db[s]| ==> db[s][k].speaker == speakers[s])
  }

  lemma {:induction false} CollectedCountAbsent(speakers: seq<SpeakerId>, db: seq<seq<SubclipRow>>, sp: SpeakerId)
    requires WellFormed(speakers, db) && sp !in speakers
    ensures CountOf(Collected(db), sp) == 0
  {
    if db != [] {
      var n := |db| - 1;
      assert WellFormed(speakers[..n], db[..n]);
      CollectedCountAbsent(speakers[..n], db[..n], sp);
      CountAppend(Collected(db[..n]), Newest(db[n]), sp);
      CountUniform(Newest(db[n]), speakers[n], sp);
    }
  }

  lemma {:induction false} CollectedCount(speakers: seq<SpeakerId>, db: seq<seq<SubclipRow>>, s: nat)
    requires WellFormed(speakers, db) && s < |db|
    ensures CountOf(Collected(db), speakers[s]) == Min(PerSpeaker, |db[s]|)
  {
    var n := |db| - 1;
    assert WellFormed(speakers[..n], db[..n]);
    CountAppend(Collected(db[..n]), Newest(db[n]), speakers[s]);
    CountUniform(Newest(db[n]), speakers[n], speakers[s]);
    if s < n {
      CollectedCount(speakers[..n], db[..n], s);
    } else {
      assert forall t :: 0 <= t < n ==> speakers[..n][t] != speakers[n];
      CollectedCountAbsent(speakers[..n], db[..n], speakers[n]);
    }
  }

  /**
    Each registered speaker contributes exactly min(3, its number of rows)
    pairs to the batch, so never more than three.
   */
  lemma {:induction false} PerSpeakerCap(speakers: seq<SpeakerId>, db: seq<seq<SubclipRow>>, s: nat)
    requires WellFormed(speakers, db) && s < |db|
    ensures CountOf(Batch(db), speakers[s]) == Min(PerSpeaker, |db[s]|)
  {
    var xs := Collected(db);
    CollectedCount(speakers, db, s);
    if xs != [] {
      assert xs == [xs[0]] + xs[1..];
      CountAppend([xs[0]], xs[1..], speakers[s]);
      CountAppend([xs[0]], Reversed(xs[1..]), speakers[s]);
      CountReversed(xs[1..], speakers[s]);
    }
  }

  /**
    Every batch entry is one of the first three rows of some speaker's list,
    its speaker field being that row's `speaker` column.
   */
  lemma {:induction false} BatchEntriesAreNewestRows(db: seq<seq<SubclipRow>>, j: nat)
    requires j < |Batch(db)|
    ensures exists s, k :: 0 <= s < |db| && 0 <= k < Min(PerSpeaker, |db[s]|) &&
                           Batch(db)[j] == Candidate(db[s][k].speaker, db[s][k].hash)
  {
    ArrangementOrder(Collected(db));
    assert Batch(db)[j] in multiset(Collected(db));
    CollectedMembers(db, Batch(db)[j]);
  }

  lemma {:induction false} CollectedMembers(db: seq<seq<SubclipRow>>, c: Candidate)
    requires c in Collected(db)
    ensures exists s, k :: 0 <= s < |db| && 0 <= k < Min(PerSpeaker, |db[s]|) &&
                           c == Candidate(db[s][k].speaker, db[s][k].hash)
  {
    var n := |db| - 1;
    if c in Collected(db[..n]) {
      CollectedMembers(db[..n], c);
      var s, k :| 0 <= s < n && 0 <= k < Min(PerSpeaker, |db[..n][s]|) &&
                  c == Candidate(db[..n][s][k].speaker, db[..n][s][k].hash);
      assert db[..n][s] == db[s];
    } else {
      var k :| 0 <= k < |Newest(db[n])| && Newest(db[n])[k] == c;
      assert c == Candidate(db[n][k].speaker, db[n][k].hash);
    }
  }
}
