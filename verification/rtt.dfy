/**
 `Connection.compute_RTT` (pasta/connection.py) as a whole: step 1 (the
 backward matching scan) followed by step 2 (the forward filling scan). The
 source mutates the `RTT` attribute of each datagram in place and reverses
 the list twice; here the result is a new list in which only the RTT slots
 differ.
 */
module Rtt {
  import opened Options
  import opened Datagrams
  import RttMatching
  import RttFilling

  /** The datagrams with their RTT slots replaced by `col`, position by
      position. */
  function WithRtts(ds: seq<Datagram>, col: seq<Option<int>>): (r: seq<Datagram>)
    requires |col| == |ds|
    ensures |r| == |ds|
    ensures forall i :: 0 <= i < |ds| ==> r[i].rtt == col[i]
    ensures forall i :: 0 <= i < |ds| ==> r[i] == ds[i].(rtt := r[i].rtt)
  {
    seq(|ds|, i requires 0 <= i < |ds| => ds[i].(rtt := col[i]))
  }

  /** The datagram list after `compute_RTT`: same length, same order, and
      every datagram unchanged except for its RTT slot. */
  function ComputeRtt(ds: seq<Datagram>): (r: seq<Datagram>)
    ensures |r| == |ds|
    ensures forall i :: 0 <= i < |ds| ==> r[i] == ds[i].(rtt := r[i].rtt)
  {
    WithRtts(ds, RttFilling.FillPass(ds, RttMatching.MatchPass(ds)))
  }

  /** Every datagram ends with the RTT step 2 expects from the column step 1
      left behind. */
  lemma ComputeRttIsExpected(ds: seq<Datagram>, i: nat)
    requires i < |ds|
    ensures ComputeRtt(ds)[i].rtt == RttFilling.ExpectedRtt(ds, RttMatching.MatchPass(ds), i)
  {
    RttFilling.FillPassAt(ds, RttMatching.MatchPass(ds), i);
  }

  /** A datagram matched in step 1 to the acker `a` ends with exactly the
      time from it to `a`: step 2 does not overwrite it. */
  lemma MatchedRttKept(ds: seq<Datagram>, i: nat, a: nat)
    requires i < |ds| && RttMatching.AckerOf(ds, i) == Some(a)
    ensures ComputeRtt(ds)[i].rtt == Some(ds[a].time - ds[i].time)
  {
    var col := RttMatching.MatchPass(ds);
    RttMatching.MatchSound(ds, i);
    assert col[i] == Some(ds[a].time - ds[i].time);
    RttFilling.FillKeepsKnown(ds, col, i);
    assert ComputeRtt(ds)[i].rtt == RttFilling.FillPass(ds, col)[i];
  }

  /** A datagram left unmatched by step 1 that already had an RTT keeps it. */
  lemma PriorRttKept(ds: seq<Datagram>, i: nat)
    requires i < |ds| && RttMatching.AckerOf(ds, i).None? && ds[i].rtt.Some?
    ensures ComputeRtt(ds)[i].rtt == ds[i].rtt
  {
    var col := RttMatching.MatchPass(ds);
    RttMatching.MatchSound(ds, i);
    assert col[i] == ds[i].rtt;
    RttFilling.FillKeepsKnown(ds, col, i);
    assert ComputeRtt(ds)[i].rtt == RttFilling.FillPass(ds, col)[i];
  }

  /** With every RTT slot already filled, step 2 changes nothing. */
  lemma FillOnFullColumnIsIdentity(ds: seq<Datagram>, col: seq<Option<int>>)
    requires |col| == |ds| && forall i :: 0 <= i < |ds| ==> col[i].Some?
    ensures RttFilling.FillPass(ds, col) == col
  {
    forall i | 0 <= i < |ds|
      ensures RttFilling.FillPass(ds, col)[i] == col[i]
    {
      RttFilling.FillKeepsKnown(ds, col, i);
    }
  }
}
