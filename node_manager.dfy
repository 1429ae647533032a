/**
  The node manager's registry: the module-level dict `final`, which every
  probe thread of `check_port` updates in place and `get_status` serves as it
  is. Sockets, threads and the probing loop are outside the model; a probe is
  given as the code `connect_ex` returned (or the fact that something raised),
  the current integer timestamp and the latency text.
 */
module NodeManager {
  import opened Wrappers
  import opened PyStr

  type Ip = string

  /** One value of `final`: `{"last_seen": …, "latency": …}`. */
  datatype NodeRecord = NodeRecord(lastSeen: string, latency: string)

  /** What one probe came to: `connect_ex` returned a code, or an exception was swallowed. */
  datatype Probe = Connected(code: int) | Raised

  /** One run of `check_port(ip, port)`. */
  datatype ProbeEvent = ProbeEvent(ip: Ip, probe: Probe, now: nat, latency: string)

  /**
    `final` after one probe of `ip`: only a connect result of 0 writes, it
    replaces the whole record of `ip` with one whose `last_seen` reads back as
    the probe's timestamp, and no other address's record changes.
   */
  function Probed(final: map<Ip, NodeRecord>, e: ProbeEvent): (r: map<Ip, NodeRecord>)
    ensures r.Keys == (if e.probe == Connected(0) then final.Keys + {e.ip} else final.Keys)
    ensures forall other :: other in final && other != e.ip ==> r[other] == final[other]
    ensures e.probe != Connected(0) ==> r == final
    ensures e.probe == Connected(0) ==>
              ParseDecimal(r[e.ip].lastSeen) == Some(e.now) && r[e.ip].latency == e.latency
  {
    ParseDecimalOfDecimal(e.now);
    if e.probe == Connected(0) then final[e.ip := NodeRecord(Decimal(e.now), e.latency)] else final
  }

  /** `final` after a run of probes, applied one after the other. */
  function ProbeRun(final: map<Ip, NodeRecord>, events: seq<ProbeEvent>): map<Ip, NodeRecord>
  {
    if events == [] then final else Probed(ProbeRun(final, events[..|events| - 1]), events[|events| - 1])
  }

  /** The record written by the last successful probe of `ip` in the run, if any. */
  function LastWrite(events: seq<ProbeEvent>, ip: Ip): Option<NodeRecord>
  {
    if events == [] then None
    else
      var e := events[|events| - 1];
      if e.ip == ip && e.probe == Connected(0) then Some(NodeRecord(Decimal(e.now), e.latency))
      else LastWrite(events[..|events| - 1], ip)
  }

  /**
    After any run of probes, an address is in `final` exactly when it was
    before or some probe of it connected, and its record is the one the last
    such probe wrote (untouched if none did): no write is lost or undone and
    nothing is deleted.
   */
  lemma {:induction false} ProbeRunKeepsLastWrite(final: map<Ip, NodeRecord>, events: seq<ProbeEvent>, ip: Ip)
    ensures ip in ProbeRun(final, events) <==> ip in final || LastWrite(events, ip).Some?
    ensures LastWrite(events, ip).Some? ==> ProbeRun(final, events)[ip] == LastWrite(events, ip).value
    ensures LastWrite(events, ip).None? && ip in final ==> ProbeRun(final, events)[ip] == final[ip]
  {
    if events != [] {
      ProbeRunKeepsLastWrite(final, events[..|events| - 1], ip);
    }
  }

  /** The entries of `m` for `keys`, in that order. */
  function Entries(keys: seq<Ip>, m: map<Ip, NodeRecord>): (r: seq<(Ip, NodeRecord)>)
    requires forall k :: k in keys ==> k in m
    ensures |r| == |keys|
    ensures forall i :: 0 <= i < |r| ==> r[i] == (keys[i], m[keys[i]])
  {
    if keys == [] then [] else [(keys[0], m[keys[0]])] + Entries(keys[1..], m)
  }

  /** The registry: the dict `final`, with its keys in insertion order as a Python dict keeps them. */
  class Registry {
    var final: map<Ip, NodeRecord>
    var order: seq<Ip>

    ghost predicate Valid()
      reads this
    {
      && (forall i, j :: 0 <= i < j < |order| ==> order[i] != order[j])
      && (forall ip :: ip in final <==> ip in order)
    }

    constructor ()
      ensures Valid() && final == map[] && order == []
    {
      final := map[];
      order := [];
    }

    /** `check_port(ip, port)` once the probe's outcome is known. */
    method CheckPort(e: ProbeEvent)
      requires Valid()
      modifies this
      ensures Valid()
      ensures final == Probed(old(final), e)
      ensures order == if e.probe == Connected(0) && e.ip !in old(final) then old(order) + [e.ip] else old(order)
    {
      match e.probe {
        case Connected(result) =>
          if result == 0 {
            if e.ip !in final {
              order := order + [e.ip];
            }
            final := final[e.ip := NodeRecord(Decimal(e.now), e.latency)];
          }
        case Raised =>
      }
    }

    /**
      `get_status`: every record of `final`, once each and as it is, in the
      dict's order; addresses in the answer are pairwise distinct.
     */
    function Status(): (status: seq<(Ip, NodeRecord)>)
      reads this
      requires Valid()
      ensures |status| == |final|
      ensures forall i :: 0 <= i < |status| ==> status[i].0 in final && status[i].1 == final[status[i].0]
      ensures forall ip :: ip in final ==> exists i :: 0 <= i < |status| && status[i].0 == ip
      ensures forall i, j :: 0 <= i < j < |status| ==> status[i].0 != status[j].0
    {
      assert forall ip :: ip in final ==> exists i :: 0 <= i < |order| && order[i] == ip;
      DistinctCard(order, final.Keys);
      Entries(order, final)
    }
  }

  /** A duplicate-free sequence has as many elements as the set of them. */
  lemma {:induction false} DistinctCard(s: seq<Ip>, keys: set<Ip>)
    requires forall i, j :: 0 <= i < j < |s| ==> s[i] != s[j]
    requires forall k :: k in keys <==> k in s
    ensures |keys| == |s|
  {
    if s != [] {
      var rest := s[1..];
      assert forall k :: k in keys - {s[0]} <==> k in rest;
      DistinctCard(rest, keys - {s[0]});
    } else {
      assert keys == {};
    }
  }
}
