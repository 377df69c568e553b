/**
 The server-side stepping-stone detector
 (pasta/plugins/stepping_stone_detection_serverside.py). On the client's
 payload datagrams it compares each RTT with the inter-arrival time (IAT)
 before that datagram; when almost none of them are close, or when they
 are close but the payload sizes are concentrated in a few sizes, the
 connection is flagged as part of a stepping-stone chain.
 */
module SteppingStone {
  import opened Options
  import opened Datagrams
  import PayloadClusters

  const IatRttDifferent: real := 0.01
  const CloseEnough: real := 0.5
  /** Least number of RTT samples (after the first is dropped). */
  const MinSamples: nat := 20
  /** `analyse` builds a per-connection detector only above this many
      datagrams. */
  const MinDatagrams: nat := 20

  predicate IsClientPayload(d: Datagram) {
    d.sentByClient && d.HasPayload()
  }

  /** The constructor's filter: the client's datagrams that carry payload,
      in capture order, each of them exactly once. */
  function ClientPayload(ds: seq<Datagram>): (fs: seq<Datagram>)
    ensures |fs| <= |ds|
    ensures forall i :: 0 <= i < |fs| ==> fs[i].sentByClient && fs[i].HasPayload() && fs[i] in ds
    ensures SelectedFrom(fs, ds, IsClientPayload)
  {
    if |ds| == 0 then []
    else ClientPayload(DropLast(ds)) + (if Last(ds).sentByClient && Last(ds).HasPayload() then [Last(ds)] else [])
  }

  /** The RTT of every filtered datagram, read without a check: one unset
      RTT aborts. */
  function RttValues(fs: seq<Datagram>): (r: Checked<seq<int>>)
    ensures r.Ok? <==> forall i :: 0 <= i < |fs| ==> fs[i].rtt.Some?
    ensures r.Ok? ==> |r.value| == |fs| && forall i :: 0 <= i < |fs| ==> r.value[i] == fs[i].rtt.value
  {
    if |fs| == 0 then Ok([])
    else match RttValues(DropLast(fs))
      case RttUnset => RttUnset
      case Ok(rs) => if Last(fs).rtt.None? then RttUnset else Ok(rs + [Last(fs).rtt.value])
  }

  /** The IAT loop state: the last client payload datagram seen (none yet
      while `first` holds) and the gaps collected. */
  datatype IatScan = IatScan(last: Option<Datagram>, iats: seq<int>)

  function IatStep(st: IatScan, d: Datagram): IatScan
  {
    if !d.HasPayload() || !d.sentByClient then st
    else match st.last
      case Some(prev) => IatScan(Some(d), st.iats + [d.time - prev.time])
      case None => IatScan(Some(d), st.iats)
  }

  function RunIatScan(ds: seq<Datagram>): IatScan
  {
    if |ds| == 0 then IatScan(None, []) else IatStep(RunIatScan(DropLast(ds)), Last(ds))
  }

  /** The list of inter-arrival times between consecutive client payload
      datagrams. */
  function Iats(ds: seq<Datagram>): seq<int>
  {
    RunIatScan(ds).iats
  }

  /** An RTT sample and the IAT before it are close: the RTT is non-zero and
      differs from the IAT by at most half of itself. */
  predicate Close(rtt: int, iat: int)
  {
    rtt != 0 && PayloadClusters.Abs(rtt - iat) as real / PayloadClusters.Abs(rtt) as real <= CloseEnough
  }

  /** `compt`: how many of the first |rtts| positions pair close values. */
  function CountClose(rtts: seq<int>, iats: seq<int>): (c: nat)
    requires |rtts| <= |iats|
    ensures c <= |rtts|
  {
    if |rtts| == 0 then 0
    else CountClose(DropLast(rtts), iats) + (if Close(Last(rtts), iats[|rtts| - 1]) then 1 else 0)
  }

  /** `compare_RTT_IAT`: `Ok(None)` is the inconclusive answer, `Ok(Some(b))`
      says whether RTTs and IATs are different enough. */
  function CompareRttIat(ds: seq<Datagram>): Checked<Option<bool>>
  {
    var fs := ClientPayload(ds);
    match RttValues(fs)
    case RttUnset => RttUnset
    case Ok(all) =>
      var rtts := if |all| == 0 then [] else all[1..];
      if |rtts| < MinSamples then Ok(None)
      else
        var iats := Iats(ds);
        IatsAreGaps(ds);
        Ok(Some(CountClose(rtts, iats) as real / |rtts| as real <= IatRttDifferent))
  }

  /** The payload sizes of the client's payload datagrams. */
  function PayloadSizes(fs: seq<Datagram>): (ps: seq<int>)
    ensures |ps| == |fs|
    ensures forall i :: 0 <= i < |fs| ==> ps[i] == fs[i].payloadLen
  {
    seq(|fs|, i requires 0 <= i < |fs| => fs[i].payloadLen as int)
  }

  /** `is_stepping_stone`: inconclusive means no; a clear difference
      means yes; otherwise the payload-size test decides. */
  function IsSteppingStone(ds: seq<Datagram>): Checked<bool>
  {
    match CompareRttIat(ds)
    case RttUnset => RttUnset
    case Ok(None) => Ok(false)
    case Ok(Some(true)) => Ok(true)
    case Ok(Some(false)) =>
      DecidedHasSamples(ds);
      Ok(PayloadClusters.IsModallyDistributed(PayloadSizes(ClientPayload(ds))))
  }

  /** The body of the loop of `analyse`, for one connection: small
      connections are not examined. */
  function AnalyseConnection(ds: seq<Datagram>): Checked<bool>
  {
    if |ds| > MinDatagrams then IsSteppingStone(ds) else Ok(false)
  }

  /** The loop of `analyse` over the per-connection verdicts, in order; the
      first unset RTT aborts the whole analysis. */
  function Collect(vs: seq<Checked<bool>>): (r: Checked<seq<bool>>)
    ensures r.Ok? ==> |r.value| == |vs|
  {
    if |vs| == 0 then Ok([])
    else match Collect(DropLast(vs))
      case RttUnset => RttUnset
      case Ok(bs) =>
        match Last(vs)
        case RttUnset => RttUnset
        case Ok(b) => Ok(bs + [b])
  }

  /** `analyse` over all connections. */
  function Analyse(cs: seq<seq<Datagram>>): (r: Checked<seq<bool>>)
    ensures r.Ok? ==> |r.value| == |cs|
  {
    Collect(seq(|cs|, i requires 0 <= i < |cs| => AnalyseConnection(cs[i])))
  }

  // ---------------------------------------------------------------------
  // Properties
  // ---------------------------------------------------------------------

  /** The IAT loop state after the client payload datagrams fs: the gaps
      between consecutive ones, and the last one. */
  predicate GapsOf(fs: seq<Datagram>, st: IatScan)
  {
    && |st.iats| == (if |fs| == 0 then 0 else |fs| - 1)
    && (forall i :: 0 <= i < |st.iats| ==> st.iats[i] == fs[i + 1].time - fs[i].time)
    && st.last == (if |fs| == 0 then None else Some(Last(fs)))
  }

  /** One iteration of the IAT loop extends the gaps by the datagram when
      it is a client payload datagram. */
  lemma IatStepGaps(fs: seq<Datagram>, st: IatScan, d: Datagram)
    requires GapsOf(fs, st)
    ensures GapsOf(fs + (if IsClientPayload(d) then [d] else []), IatStep(st, d))
  {
    if IsClientPayload(d) && |fs| > 0 {
      var fs' := fs + [d];
      assert fs'[|fs|] == d && fs'[|fs| - 1] == Last(fs);
    }
  }

  /** The IAT list holds the gaps between consecutive client payload
      datagrams: one fewer than there are of them, and gap i lies between
      datagram i and datagram i+1. */
  lemma {:induction false} IatsAreGaps(ds: seq<Datagram>)
    ensures var fs := ClientPayload(ds);
            && |Iats(ds)| == (if |fs| == 0 then 0 else |fs| - 1)
            && (forall i :: 0 <= i < |Iats(ds)| ==> Iats(ds)[i] == fs[i + 1].time - fs[i].time)
            && RunIatScan(ds).last == (if |fs| == 0 then None else Some(Last(fs)))
  {
    GapsOfScan(ds);
  }

  lemma {:induction false} GapsOfScan(ds: seq<Datagram>)
    ensures GapsOf(ClientPayload(ds), RunIatScan(ds))
  {
    if |ds| > 0 {
      var pre := DropLast(ds);
      var d := Last(ds);
      GapsOfScan(pre);
      IatStepGaps(ClientPayload(pre), RunIatScan(pre), d);
      assert RunIatScan(ds) == IatStep(RunIatScan(pre), d);
      assert ClientPayload(ds) == ClientPayload(pre) + (if IsClientPayload(d) then [d] else []);
    }
  }

  /** A conclusive comparison had more than `MinSamples` client payload
      datagrams to work on. */
  lemma DecidedHasSamples(ds: seq<Datagram>)
    requires CompareRttIat(ds).Ok? && CompareRttIat(ds).value.Some?
    ensures |ClientPayload(ds)| > MinSamples
  {
  }

  /** Client payload datagram `i` (i >= 1) is close: its RTT matches the
      time since the previous client payload datagram. */
  predicate CloseAt(fs: seq<Datagram>, i: int)
    requires forall k :: 0 <= k < |fs| ==> fs[k].rtt.Some?
  {
    1 <= i < |fs| && Close(fs[i].rtt.value, fs[i].time - fs[i - 1].time)
  }

  /** Number of close datagrams among fs[1..n]. */
  function CloseCount(fs: seq<Datagram>, n: nat): nat
    requires n <= |fs| && forall k :: 0 <= k < |fs| ==> fs[k].rtt.Some?
  {
    if n <= 1 then 0 else CloseCount(fs, n - 1) + (if CloseAt(fs, n - 1) then 1 else 0)
  }

  /** Counting over RTTs[1..m] paired with the gaps before them counts the
      close datagrams among fs[1..m]. */
  lemma {:induction false} CountCloseMatches(fs: seq<Datagram>, all: seq<int>, iats: seq<int>, m: nat)
    requires |all| == |fs| && 1 <= |fs| && |iats| == |fs| - 1 && m <= |fs| - 1
    requires forall k :: 0 <= k < |fs| ==> fs[k].rtt == Some(all[k])
    requires forall k :: 0 <= k < |iats| ==> iats[k] == fs[k + 1].time - fs[k].time
    ensures CountClose(all[1..][..m], iats) == CloseCount(fs, m + 1)
  {
    var rtts := all[1..];
    if m > 0 {
      CountCloseMatches(fs, all, iats, m - 1);
      assert DropLast(rtts[..m]) == rtts[..m - 1];
      assert Last(rtts[..m]) == fs[m].rtt.value;
      assert iats[m - 1] == fs[m].time - fs[m - 1].time;
    } else {
      assert rtts[..0] == [];
    }
  }

  /** The loop of `compare_RTT_IAT` pairs RTTs[i] with IATs[i], and both
      belong to client payload datagram i+1: it counts exactly the close
      datagrams. */
  lemma CountCloseAligned(ds: seq<Datagram>, all: seq<int>)
    requires var fs := ClientPayload(ds);
             && RttValues(fs) == Ok(all) && 1 <= |fs|
    ensures |all| == |ClientPayload(ds)| && |all[1..]| == |Iats(ds)|
    ensures CountClose(all[1..], Iats(ds)) == CloseCount(ClientPayload(ds), |ClientPayload(ds)|)
  {
    var fs := ClientPayload(ds);
    IatsAreGaps(ds);
    CountCloseMatches(fs, all, Iats(ds), |fs| - 1);
    assert all[1..][..|fs| - 1] == all[1..];
  }

  /** `compare_RTT_IAT` is inconclusive exactly when every client payload
      datagram has an RTT and there are at most 20 of them, i.e. fewer
      than 20 RTTs once the first is dropped. */
  lemma InconclusiveIff(ds: seq<Datagram>)
    ensures CompareRttIat(ds) == Ok(None) <==>
              (forall i :: 0 <= i < |ClientPayload(ds)| ==> ClientPayload(ds)[i].rtt.Some?)
              && |ClientPayload(ds)| <= MinSamples
  {
  }

  /** A conclusive answer is "different enough" exactly when at most 1% of
      the datagrams after the first are close. */
  lemma DecisionIsShareOfClose(ds: seq<Datagram>)
    requires CompareRttIat(ds).Ok? && CompareRttIat(ds).value.Some?
    ensures var fs := ClientPayload(ds);
            && (forall i :: 0 <= i < |fs| ==> fs[i].rtt.Some?)
            && CompareRttIat(ds).value.value
               == (CloseCount(fs, |fs|) as real / (|fs| - 1) as real <= IatRttDifferent)
  {
    var fs := ClientPayload(ds);
    assert RttValues(fs).Ok?;
    var all := RttValues(fs).value;
    assert |all| == |fs| && |all| > MinSamples;
    var rtts := all[1..];
    IatsAreGaps(ds);
    CountCloseAligned(ds, all);
    assert CompareRttIat(ds).value.value
           == (CountClose(rtts, Iats(ds)) as real / |rtts| as real <= IatRttDifferent);
  }

  /** A connection with at most 20 datagrams in total is never flagged. */
  lemma SmallConnectionNotFlagged(ds: seq<Datagram>)
    requires |ds| <= MinDatagrams
    ensures AnalyseConnection(ds) == Ok(false)
  {
  }

  /** The verdict: flagged exactly when the comparison is conclusive and
      either says "different enough" or, failing that, the payload sizes
      are modally distributed. */
  lemma VerdictIff(ds: seq<Datagram>)
    ensures IsSteppingStone(ds) == Ok(true) <==>
              && CompareRttIat(ds).Ok?
              && CompareRttIat(ds).value.Some?
              && (CompareRttIat(ds).value.value
                  || (|ClientPayload(ds)| > 0 && PayloadClusters.IsModallyDistributed(PayloadSizes(ClientPayload(ds)))))
    ensures CompareRttIat(ds) == Ok(None) ==> IsSteppingStone(ds) == Ok(false)
  {
    if CompareRttIat(ds).Ok? && CompareRttIat(ds).value.Some? {
      DecidedHasSamples(ds);
    }
  }

  /** When the client's payload datagrams all carry the same size, a
      conclusive comparison always flags the connection: either directly or
      through the payload-size test. */
  lemma EqualSizesFlagged(ds: seq<Datagram>, v: nat)
    requires CompareRttIat(ds).Ok? && CompareRttIat(ds).value.Some?
    requires forall i :: 0 <= i < |ClientPayload(ds)| ==> ClientPayload(ds)[i].payloadLen == v
    ensures IsSteppingStone(ds) == Ok(true)
  {
    DecidedHasSamples(ds);
    var ps := PayloadSizes(ClientPayload(ds));
    PayloadClusters.EqualPayloadsModal(ps, v);
  }

  /** The loop succeeds exactly when every verdict does, and then lists
      them in order. */
  lemma {:induction false} CollectPerEntry(vs: seq<Checked<bool>>)
    ensures Collect(vs).Ok? <==> forall i :: 0 <= i < |vs| ==> vs[i].Ok?
    ensures Collect(vs).Ok? ==> forall i :: 0 <= i < |vs| ==> Collect(vs).value[i] == vs[i].value
  {
    if |vs| > 0 {
      CollectPerEntry(DropLast(vs));
    }
  }

  /** The analysis of all connections succeeds exactly when each one does,
      and then gives each connection its own verdict, in order. */
  lemma AnalysePerConnection(cs: seq<seq<Datagram>>)
    ensures Analyse(cs).Ok? <==> forall i :: 0 <= i < |cs| ==> AnalyseConnection(cs[i]).Ok?
    ensures Analyse(cs).Ok? ==> forall i :: 0 <= i < |cs| ==> Analyse(cs).value[i] == AnalyseConnection(cs[i]).value
  {
    var vs := seq(|cs|, i requires 0 <= i < |cs| => AnalyseConnection(cs[i]));
    assert Analyse(cs) == Collect(vs);
    assert forall i :: 0 <= i < |cs| ==> vs[i] == AnalyseConnection(cs[i]);
    CollectPerEntry(vs);
  }
}
