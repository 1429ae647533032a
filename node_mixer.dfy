/**
  The mixer's dispatcher: the module-level list `node_busy`, which
  `job_from_api` appends to while it walks the registry snapshot and `unbusy`
  removes from. The HTTP calls are outside the model: the snapshot arrives as
  the decoded `{ip: {last_seen, latency}}` answer in its iteration order, the
  clock as `clock(i)`, the integer `int(now)` read when the `i`-th entry is
  reached (the loop reads the clock anew for every entry, after the blocking
  posts to the earlier ones), and the nodes whose `requests.post` raises as a
  set.
 */
module NodeMixer {
  import opened Wrappers
  import opened PyStr
  import NodeManager

  type Ip = NodeManager.Ip
  type Snapshot = seq<(Ip, NodeManager.NodeRecord)>

  /** Largest accepted age, in seconds, of a node's `last_seen`. */
  const StalenessWindow := 20

  /** `int(now) - int(last_seen) <= 20`: inclusive, and a `last_seen` in the future passes. */
  predicate Fresh(now: int, lastSeen: int)
  {
    now - lastSeen <= StalenessWindow
  }

  predicate Distinct(s: seq<Ip>)
  {
    forall i, j :: 0 <= i < j < |s| ==> s[i] != s[j]
  }

  predicate DistinctKeys(snapshot: Snapshot)
  {
    forall i, j :: 0 <= i < j < |snapshot| ==> snapshot[i].0 != snapshot[j].0
  }

  /** The exception that ends a `job_from_api` loop early. */
  datatype Failure =
    | BadLastSeen(ip: Ip)   // `int(last_seen)` raised ValueError
    | PostFailed(ip: Ip)    // `requests.post` to the node raised

  /** What one `job_from_api` call did: the addresses appended to `node_busy`, in order,
      the ones the job was posted to, and the exception that stopped it, if any. */
  datatype Dispatch = Dispatch(appended: seq<Ip>, posted: seq<Ip>, failure: Option<Failure>)

  /** One turn of the loop over the snapshot. */
  function Step(busy: seq<Ip>, d: Dispatch, entry: (Ip, NodeManager.NodeRecord), now: int, unreachable: set<Ip>): Dispatch
  {
    var ip := entry.0;
    if ip in busy + d.appended then d
    else
      match ParseDecimal(entry.1.lastSeen)
      case None => d.(failure := Some(BadLastSeen(ip)))
      case Some(t) =>
        if !Fresh(now, t) then d
        else if ip in unreachable then Dispatch(d.appended + [ip], d.posted, Some(PostFailed(ip)))
        else Dispatch(d.appended + [ip], d.posted + [ip], None)
  }

  /** `job_from_api` over the first entries of the snapshot; an exception ends the loop. */
  function DispatchRun(busy: seq<Ip>, snapshot: Snapshot, clock: nat -> int, unreachable: set<Ip>): Dispatch
  {
    if snapshot == [] then Dispatch([], [], None)
    else
      var d := DispatchRun(busy, snapshot[..|snapshot| - 1], clock, unreachable);
      if d.failure.Some? then d else Step(busy, d, snapshot[|snapshot| - 1], clock(|snapshot| - 1), unreachable)
  }

  /** Whether an entry passes the dispatch rule against the busy list. */
  predicate Eligible(busy: seq<Ip>, entry: (Ip, NodeManager.NodeRecord), now: int)
  {
    && entry.0 !in busy
    && ParseDecimal(entry.1.lastSeen).Some?
    && Fresh(now, ParseDecimal(entry.1.lastSeen).value)
  }

  /**
    The bound is inclusive and one-sided: a node last seen exactly twenty
    seconds ago is fresh, one seen twenty-one seconds ago is not, and a
    `last_seen` later than the clock always passes.
   */
  lemma {:induction false} FreshBoundary(now: int, lastSeen: int)
    ensures Fresh(now, now - StalenessWindow) && !Fresh(now, now - StalenessWindow - 1)
    ensures lastSeen >= now ==> Fresh(now, lastSeen)
  {
  }

  /**
    A record written by a successful probe at time `t` reads back through the
    mixer's `int(last_seen)` as `t`: the address is eligible exactly when it is
    not busy and `now - t <= 20`, whatever the record held before.
   */
  lemma {:induction false} ProbedNodeEligible(final: map<Ip, NodeManager.NodeRecord>, e: NodeManager.ProbeEvent, busy: seq<Ip>, now: int)
    requires e.probe == NodeManager.Connected(0)
    ensures var r := NodeManager.Probed(final, e);
      e.ip in r && (Eligible(busy, (e.ip, r[e.ip]), now) <==> e.ip !in busy && Fresh(now, e.now))
  {
  }

  /** The reference rule: every eligible address of the snapshot, each entry judged at its own clock reading, in snapshot order. */
  function EligibleNodes(busy: seq<Ip>, snapshot: Snapshot, clock: nat -> int): (r: seq<Ip>)
    ensures forall k :: 0 <= k < |r| ==> r[k] !in busy
    ensures forall k :: 0 <= k < |r| ==> r[k] in KeysOf(snapshot)
  {
    if snapshot == [] then []
    else
      var rest := EligibleNodes(busy, snapshot[..|snapshot| - 1], clock);
      var e := snapshot[|snapshot| - 1];
      rest + (if Eligible(busy, e, clock(|snapshot| - 1)) then [e.0] else [])
  }

  function KeysOf(snapshot: Snapshot): (keys: seq<Ip>)
    ensures |keys| == |snapshot|
    ensures forall i :: 0 <= i < |snapshot| ==> keys[i] == snapshot[i].0
  {
    if snapshot == [] then [] else KeysOf(snapshot[..|snapshot| - 1]) + [snapshot[|snapshot| - 1].0]
  }

  /**
    With no exception, `job_from_api` appends and posts to exactly the
    eligible nodes, all of them and in snapshot order (there is no break);
    after an exception what was appended is a prefix of that list, and the job
    was posted to all of it except a node whose post raised, which stays busy.
   */
  lemma {:induction false} DispatchMatchesEligible(busy: seq<Ip>, snapshot: Snapshot, clock: nat -> int, unreachable: set<Ip>)
    requires DistinctKeys(snapshot)
    ensures var d := DispatchRun(busy, snapshot, clock, unreachable);
      && d.appended <= EligibleNodes(busy, snapshot, clock)
      && (d.failure.None? ==> d.appended == EligibleNodes(busy, snapshot, clock))
      && (if d.failure.Some? && d.failure.value.PostFailed?
          then d.appended == d.posted + [d.failure.value.ip]
          else d.appended == d.posted)
  {
    if snapshot != [] {
      var init := snapshot[..|snapshot| - 1];
      var e := snapshot[|snapshot| - 1];
      DispatchMatchesEligible(busy, init, clock, unreachable);
      var d := DispatchRun(busy, init, clock, unreachable);
      var el := EligibleNodes(busy, init, clock);
      assert EligibleNodes(busy, snapshot, clock) == el + (if Eligible(busy, e, clock(|snapshot| - 1)) then [e.0] else []);
      if d.failure.None? {
        assert forall k :: 0 <= k < |init| ==> init[k].0 != e.0;
        assert e.0 !in KeysOf(init);
        StepMatches(busy, d, e, clock(|snapshot| - 1), unreachable, el);
      }
    }
  }

  /** One turn from a run that matched the eligible list so far. */
  lemma {:induction false} StepMatches(busy: seq<Ip>, d: Dispatch, e: (Ip, NodeManager.NodeRecord), now: int,
                                       unreachable: set<Ip>, el: seq<Ip>)
    requires d.failure.None? && d.appended == el && d.posted == el && e.0 !in el
    ensures var d' := Step(busy, d, e, now, unreachable);
      var el' := el + (if Eligible(busy, e, now) then [e.0] else []);
      && d'.appended <= el'
      && (d'.failure.None? ==> d'.appended == el')
      && (if d'.failure.Some? && d'.failure.value.PostFailed?
          then d'.appended == d'.posted + [d'.failure.value.ip]
          else d'.appended == d'.posted)
  {
    assert e.0 in busy + el <==> e.0 in busy;
  }

  /** An eligible entry of the snapshot is among the eligible nodes: nothing fresh and idle is skipped. */
  lemma {:induction false} EligibleNodesComplete(busy: seq<Ip>, snapshot: Snapshot, clock: nat -> int, i: nat)
    requires i < |snapshot| && Eligible(busy, snapshot[i], clock(i))
    ensures snapshot[i].0 in EligibleNodes(busy, snapshot, clock)
  {
    if i < |snapshot| - 1 {
      EligibleNodesComplete(busy, snapshot[..|snapshot| - 1], clock, i);
    }
  }

  /** Every selected node is the key of a snapshot entry that passes the rule at its own clock reading. */
  lemma {:induction false} EligibleNodesSound(busy: seq<Ip>, snapshot: Snapshot, clock: nat -> int, k: nat)
    requires k < |EligibleNodes(busy, snapshot, clock)|
    ensures exists i :: 0 <= i < |snapshot| && snapshot[i].0 == EligibleNodes(busy, snapshot, clock)[k]
                        && Eligible(busy, snapshot[i], clock(i))
  {
    var n := |snapshot| - 1;
    var init := snapshot[..n];
    var rest := EligibleNodes(busy, init, clock);
    if k < |rest| {
      EligibleNodesSound(busy, init, clock, k);
      var i :| 0 <= i < |init| && init[i].0 == rest[k] && Eligible(busy, init[i], clock(i));
      assert snapshot[i] == init[i];
    } else {
      assert Eligible(busy, snapshot[n], clock(n));
    }
  }

  /** Appending the eligible nodes keeps a duplicate-free busy list duplicate-free. */
  lemma {:induction false} EligibleKeepsDistinct(busy: seq<Ip>, snapshot: Snapshot, clock: nat -> int)
    requires Distinct(busy) && DistinctKeys(snapshot)
    ensures Distinct(busy + EligibleNodes(busy, snapshot, clock))
  {
    if snapshot != [] {
      var init := snapshot[..|snapshot| - 1];
      var e := snapshot[|snapshot| - 1];
      EligibleKeepsDistinct(busy, init, clock);
      assert forall k :: 0 <= k < |init| ==> init[k].0 != e.0;
      assert e.0 !in KeysOf(init);
      var rest := EligibleNodes(busy, init, clock);
      assert e.0 !in rest;
      if Eligible(busy, e, clock(|snapshot| - 1)) {
        assert busy + EligibleNodes(busy, snapshot, clock) == (busy + rest) + [e.0];
      } else {
        assert EligibleNodes(busy, snapshot, clock) == rest;
      }
    }
  }

  /** `list.remove(x)`: the first occurrence of `x` taken out. */
  function RemoveFirst(s: seq<Ip>, x: Ip): seq<Ip>
  {
    if s == [] then [] else if s[0] == x then s[1..] else [s[0]] + RemoveFirst(s[1..], x)
  }

  function IndexOf(s: seq<Ip>, x: Ip): (i: nat)
    requires x in s
    ensures i < |s| && s[i] == x && x !in s[..i]
  {
    if s[0] == x then 0 else 1 + IndexOf(s[1..], x)
  }

  /** `remove` deletes the first occurrence and keeps everything else in order. */
  lemma {:induction false} RemoveFirstShape(s: seq<Ip>, x: Ip)
    requires x in s
    ensures RemoveFirst(s, x) == s[..IndexOf(s, x)] + s[IndexOf(s, x) + 1..]
    ensures multiset(RemoveFirst(s, x)) == multiset(s) - multiset{x}
  {
    var i := IndexOf(s, x);
    var rest := s[..i] + s[i + 1..];
    RemoveFirstSplits(s, x);
    assert RemoveFirst(s, x) == rest;
    MultisetWithout(s, i, x);
    assert multiset(RemoveFirst(s, x)) == multiset(rest);
  }

  /** Leaving out the element at `i` takes one copy of it out of the multiset. */
  lemma {:induction false} MultisetWithout(s: seq<Ip>, i: nat, x: Ip)
    requires i < |s| && s[i] == x
    ensures multiset(s[..i] + s[i + 1..]) == multiset(s) - multiset{x}
  {
    var a, b := s[..i], s[i + 1..];
    assert s == a + [x] + b;
    assert multiset(s) == multiset(a) + multiset{x} + multiset(b);
  }

  lemma {:induction false} RemoveFirstSplits(s: seq<Ip>, x: Ip)
    requires x in s
    ensures RemoveFirst(s, x) == s[..IndexOf(s, x)] + s[IndexOf(s, x) + 1..]
  {
    if s[0] != x {
      var t := s[1..];
      var j := IndexOf(t, x);
      RemoveFirstSplits(t, x);
      assert IndexOf(s, x) == j + 1;
      assert s[..j + 1] == [s[0]] + t[..j];
      assert s[j + 2..] == t[j + 1..];
    }
  }

  /** On a duplicate-free busy list, `unbusy` frees the address for the next dispatch. */
  lemma {:induction false} RemoveFirstFrees(s: seq<Ip>, x: Ip)
    requires Distinct(s) && x in s
    ensures x !in RemoveFirst(s, x) && Distinct(RemoveFirst(s, x))
  {
    var i := IndexOf(s, x);
    RemoveFirstSplits(s, x);
    var r := RemoveFirst(s, x);
    assert |r| == |s| - 1;
    assert forall k :: 0 <= k < |r| ==> r[k] == s[if k < i then k else k + 1];
    forall k | 0 <= k < |r| ensures r[k] != x {
      assert r[k] == s[if k < i then k else k + 1];
    }
  }

  /** The mixer process: the module-level list `node_busy`. */
  class Mixer {
    var busy: seq<Ip>

    constructor ()
      ensures busy == []
    {
      busy := [];
    }

    /**
      `job_from_api()`: walks the snapshot, appends each fresh node that is not
      busy to `node_busy` and posts the job to it; earlier entries of
      `node_busy` are never touched.
     */
    method JobFromApi(snapshot: Snapshot, clock: nat -> int, unreachable: set<Ip>) returns (posted: seq<Ip>, failure: Option<Failure>)
      modifies this
      ensures var d := DispatchRun(old(busy), snapshot, clock, unreachable);
        busy == old(busy) + d.appended && posted == d.posted && failure == d.failure
    {
      ghost var busy0 := busy;
      ghost var appended: seq<Ip> := [];
      posted, failure := [], None;
      var i := 0;
      while i < |snapshot|
        invariant 0 <= i <= |snapshot|
        invariant DispatchRun(busy0, snapshot[..i], clock, unreachable) == Dispatch(appended, posted, None)
        invariant busy == busy0 + appended
      {
        assert snapshot[..i + 1][..i] == snapshot[..i];
        var node := snapshot[i].0;
        if node !in busy {
          var lastSeen := ParseDecimal(snapshot[i].1.lastSeen);
          if lastSeen.None? {
            failure := Some(BadLastSeen(node));
            break;
          }
          if clock(i) - lastSeen.value <= StalenessWindow {
            busy := busy + [node];
            appended := appended + [node];
            if node in unreachable {
              failure := Some(PostFailed(node));
              break;
            }
            posted := posted + [node];
          }
        }
        i := i + 1;
      }
      if failure.Some? {
        assert DispatchRun(busy0, snapshot[..i + 1], clock, unreachable) == Dispatch(appended, posted, failure);
        DispatchStopsAfterFailure(busy0, snapshot, clock, unreachable, i + 1);
      } else {
        assert snapshot[..i] == snapshot;
      }
    }

    /** `unbusy()`: `node_busy.remove(addr)`; an absent address raises ValueError and changes nothing. */
    method Unbusy(addr: Ip) returns (ok: bool)
      modifies this
      ensures ok == (addr in old(busy))
      ensures busy == if ok then RemoveFirst(old(busy), addr) else old(busy)
    {
      ok := addr in busy;
      if ok {
        busy := RemoveFirst(busy, addr);
      }
    }
  }

  /** Once an exception ended the loop, later snapshot entries change nothing. */
  lemma {:induction false} DispatchStopsAfterFailure(busy: seq<Ip>, snapshot: Snapshot, clock: nat -> int, unreachable: set<Ip>, n: nat)
    requires n <= |snapshot|
    requires DispatchRun(busy, snapshot[..n], clock, unreachable).failure.Some?
    ensures DispatchRun(busy, snapshot, clock, unreachable) == DispatchRun(busy, snapshot[..n], clock, unreachable)
    decreases |snapshot| - n
  {
    if n < |snapshot| {
      assert snapshot[..n + 1][..n] == snapshot[..n];
      DispatchStopsAfterFailure(busy, snapshot, clock, unreachable, n + 1);
    } else {
      assert snapshot[..n] == snapshot;
    }
  }
}
