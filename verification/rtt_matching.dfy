/**
 Step 1 of `Connection.compute_RTT` (pasta/connection.py): the backward scan
 that pairs a datagram with a later, acknowledgement-carrying datagram of the
 other side. The source reverses the list, walks it forward and reverses it
 back; here the same walk is a backward traversal by index, so the list is
 never reordered.
 */
module RttMatching {
  import opened Options
  import opened Datagrams

  /** The pending acker of each side (`last_acking`), as an index into the
      datagram list; `None` once it has been consumed. */
  datatype Ackers = Ackers(client: Option<nat>, server: Option<nat>)

  function AckerFor(p: Ackers, byClient: bool): Option<nat>
  {
    if byClient then p.client else p.server
  }

  function WithAcker(p: Ackers, byClient: bool, a: Option<nat>): Ackers
  {
    if byClient then p.(client := a) else p.(server := a)
  }

  /** Every pending acker is an index in [n, |ds|). */
  predicate InRange(ds: seq<Datagram>, p: Ackers, n: nat)
  {
    && (p.client.Some? ==> n <= p.client.value < |ds|)
    && (p.server.Some? ==> n <= p.server.value < |ds|)
  }

  /** The acker that consumes datagram `i`, given the pending ackers `p`: the
      other side's pending acker, when its sequence number is larger. */
  function MatchWith(ds: seq<Datagram>, i: nat, p: Ackers): Option<nat>
    requires i < |ds| && InRange(ds, p, i + 1)
  {
    var a := AckerFor(p, !ds[i].sentByClient);
    if a.Some? && ds[i].seqNb < ds[a.value].seqNb then a else None
  }

  /** One iteration of the backward scan on datagram `i`: a match clears the
      other side's acker, then `i` becomes its own side's acker if it carries
      an acknowledgement. */
  function Visit(ds: seq<Datagram>, i: nat, p: Ackers): (q: Ackers)
    requires i < |ds| && InRange(ds, p, i + 1)
    ensures InRange(ds, q, i)
  {
    var afterMatch := if MatchWith(ds, i, p).Some? then WithAcker(p, !ds[i].sentByClient, None) else p;
    if ds[i].CarriesAck() then WithAcker(afterMatch, ds[i].sentByClient, Some(i)) else afterMatch
  }

  /** The pending ackers once the backward scan has visited ds[n..]. */
  function PendingAckers(ds: seq<Datagram>, n: nat): (p: Ackers)
    requires n <= |ds|
    ensures InRange(ds, p, n)
    decreases |ds| - n
  {
    if n == |ds| then Ackers(None, None) else Visit(ds, n, PendingAckers(ds, n + 1))
  }

  /** The acker (if any) whose time gives datagram `i` its step-1 RTT. */
  function AckerOf(ds: seq<Datagram>, i: nat): Option<nat>
    requires i < |ds|
  {
    MatchWith(ds, i, PendingAckers(ds, i + 1))
  }

  /** The RTT column after step 1: a matched datagram gets the time from it
      to its acker; every other datagram keeps the RTT it had. */
  function MatchPass(ds: seq<Datagram>): (col: seq<Option<int>>)
    ensures |col| == |ds|
  {
    seq(|ds|, i requires 0 <= i < |ds| =>
      match AckerOf(ds, i)
      case Some(a) => Some(ds[a].time - ds[i].time)
      case None => ds[i].rtt)
  }

  /** `a` is the first datagram after `i`, in capture order, that carries an
      acknowledgement and was sent by the other side. */
  predicate FirstAckerAfter(ds: seq<Datagram>, i: int, a: int)
  {
    && 0 <= i < a < |ds|
    && ds[a].sentByClient != ds[i].sentByClient
    && ds[a].CarriesAck()
    && forall k :: i < k < a && ds[k].sentByClient == ds[a].sentByClient ==> !ds[k].CarriesAck()
  }

  /** The conditions under which step 1 may take the RTT of `i` from `a`. */
  predicate MayAck(ds: seq<Datagram>, a: int, i: int)
  {
    FirstAckerAfter(ds, i, a) && ds[i].seqNb < ds[a].seqNb
  }

  /** A pending acker of a side is the first ack-carrying datagram of that
      side at or after the scan position. */
  lemma {:induction false} PendingIsFirstCarrier(ds: seq<Datagram>, n: nat, byClient: bool)
    requires n <= |ds|
    ensures var a := AckerFor(PendingAckers(ds, n), byClient);
            a.Some? ==>
              && ds[a.value].sentByClient == byClient
              && ds[a.value].CarriesAck()
              && forall k :: n <= k < a.value && ds[k].sentByClient == byClient ==> !ds[k].CarriesAck()
    decreases |ds| - n
  {
    if n < |ds| {
      PendingIsFirstCarrier(ds, n + 1, byClient);
    }
  }

  /** A pending acker that is still pending at position n was already
      pending at every later position down to itself. */
  lemma {:induction false} PendingPersists(ds: seq<Datagram>, n: nat, m: nat, byClient: bool, a: nat)
    requires n <= m <= a < |ds|
    requires AckerFor(PendingAckers(ds, n), byClient) == Some(a)
    ensures AckerFor(PendingAckers(ds, m), byClient) == Some(a)
    decreases m - n
  {
    if n < m {
      var p := PendingAckers(ds, n + 1);
      assert PendingAckers(ds, n) == Visit(ds, n, p);
      assert AckerFor(p, byClient) == Some(a);
      PendingPersists(ds, n + 1, m, byClient, a);
    }
  }

  /** Step 1 assigns an RTT to `i` from `a` only when `a` is the first later
      ack-carrying datagram of the other side and has the larger sequence
      number, and the value is the time between the two. */
  lemma MatchSound(ds: seq<Datagram>, i: nat)
    requires i < |ds|
    ensures AckerOf(ds, i).Some? ==> MayAck(ds, AckerOf(ds, i).value, i)
    ensures AckerOf(ds, i).Some? ==> MatchPass(ds)[i] == Some(ds[AckerOf(ds, i).value].time - ds[i].time)
    ensures AckerOf(ds, i).None? ==> MatchPass(ds)[i] == ds[i].rtt
  {
    PendingIsFirstCarrier(ds, i + 1, !ds[i].sentByClient);
  }

  /** Each pending acker is consumed at most once: two datagrams never take
      their step-1 RTT from the same acker. */
  lemma ConsumedOnce(ds: seq<Datagram>, i: nat, k: nat)
    requires i < |ds| && k < |ds|
    requires AckerOf(ds, i).Some? && AckerOf(ds, i) == AckerOf(ds, k)
    ensures i == k
  {
    if i != k {
      var lo, hi := if i < k then i else k, if i < k then k else i;
      var a := AckerOf(ds, i).value;
      MatchSound(ds, lo);
      MatchSound(ds, hi);
      var side := !ds[hi].sentByClient;
      assert AckerFor(PendingAckers(ds, hi), side) == None;
      PendingPersists(ds, lo + 1, hi, side, a);
    }
  }

  /** While the backward scan runs from `a` down to `m`, `a` stays the
      pending acker of its side exactly as long as no datagram in [m, a)
      consumed it. */
  lemma {:induction false} PendingUntilConsumed(ds: seq<Datagram>, i: nat, a: nat, m: nat)
    requires FirstAckerAfter(ds, i, a) && i < m <= a
    ensures AckerFor(PendingAckers(ds, m), ds[a].sentByClient) == Some(a)
            <==> forall k :: m <= k < a ==> AckerOf(ds, k) != Some(a)
    decreases a - m
  {
    var side := ds[a].sentByClient;
    if m < a {
      PendingUntilConsumed(ds, i, a, m + 1);
      var p := PendingAckers(ds, m + 1);
      assert PendingAckers(ds, m) == Visit(ds, m, p);
      assert AckerOf(ds, m) == MatchWith(ds, m, p);
      if AckerFor(p, side) == Some(a) {
        PendingIsFirstCarrier(ds, m + 1, !side);
        if ds[m].sentByClient == side {
          assert AckerOf(ds, m) != Some(a);
        } else {
          assert AckerOf(ds, m) == Some(a) <==> ds[m].seqNb < ds[a].seqNb;
        }
      } else {
        assert AckerFor(PendingAckers(ds, m), side) != Some(a);
      }
    }
  }

  /** Completeness of step 1: a datagram is matched to the first later
      ack-carrying datagram `a` of the other side exactly when `a` has the
      larger sequence number and no datagram in between consumed it first. */
  lemma MatchComplete(ds: seq<Datagram>, i: nat, a: nat)
    requires FirstAckerAfter(ds, i, a)
    ensures AckerOf(ds, i) == Some(a)
            <==> ds[i].seqNb < ds[a].seqNb && forall k :: i < k < a ==> AckerOf(ds, k) != Some(a)
  {
    PendingUntilConsumed(ds, i, a, i + 1);
  }
}
