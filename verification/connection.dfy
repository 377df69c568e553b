/**
 The per-direction summary a connection caches when it is built
 (`Connection.__init__` in pasta/connection.py): how many datagrams and how
 many bytes (`totalLen`) each side sent.
 */
module ConnectionSummary {
  import opened Datagrams

  datatype Summary = Summary(
    clientSentNbDatagrams: nat,
    serverSentNbDatagrams: nat,
    clientSentLen: nat,
    serverSentLen: nat)

  /** Number of datagrams sent by the given side. */
  function SentNb(ds: seq<Datagram>, byClient: bool): nat
  {
    if |ds| == 0 then 0
    else SentNb(DropLast(ds), byClient) + (if Last(ds).sentByClient == byClient then 1 else 0)
  }

  /** Bytes (`totalLen`) sent by the given side. */
  function SentLen(ds: seq<Datagram>, byClient: bool): nat
  {
    if |ds| == 0 then 0
    else SentLen(DropLast(ds), byClient) + (if Last(ds).sentByClient == byClient then Last(ds).totalLen else 0)
  }

  /** Bytes of the whole connection, both sides together. */
  function TotalLen(ds: seq<Datagram>): nat
  {
    if |ds| == 0 then 0 else TotalLen(DropLast(ds)) + Last(ds).totalLen
  }

  /** The summary cached by the constructor: the two sides partition the
      datagrams and the bytes of the connection. */
  function Summarize(ds: seq<Datagram>): (s: Summary)
    ensures s.clientSentNbDatagrams == |SidePositions(ds, true)|
    ensures s.serverSentNbDatagrams == |SidePositions(ds, false)|
    ensures s.clientSentNbDatagrams + s.serverSentNbDatagrams == |ds|
    ensures s.clientSentLen == LenAt(ds, Positions(ds, ByClient))
    ensures s.serverSentLen == LenAt(ds, Positions(ds, ByServer))
    ensures s.clientSentLen + s.serverSentLen == TotalLen(ds)
  {
    SentNbCountsSide(ds, true);
    SentNbCountsSide(ds, false);
    SentLenSumsSide(ds, true, ByClient);
    SentLenSumsSide(ds, false, ByServer);
    SidesPartitionDatagrams(ds);
    SidesPartitionBytes(ds);
    Summary(SentNb(ds, true), SentNb(ds, false), SentLen(ds, true), SentLen(ds, false))
  }

  lemma {:induction false} SidesPartitionDatagrams(ds: seq<Datagram>)
    ensures SentNb(ds, true) + SentNb(ds, false) == |ds|
  {
    if |ds| > 0 {
      SidesPartitionDatagrams(DropLast(ds));
    }
  }

  lemma {:induction false} SidesPartitionBytes(ds: seq<Datagram>)
    ensures SentLen(ds, true) + SentLen(ds, false) == TotalLen(ds)
  {
    if |ds| > 0 {
      SidesPartitionBytes(DropLast(ds));
    }
  }

  /** The positions in ds of the datagrams sent by the given side. */
  function SidePositions(ds: seq<Datagram>, byClient: bool): set<nat>
  {
    set i: nat | i < |ds| && ds[i].sentByClient == byClient
  }

  /** The counter of a side counts exactly that side's datagrams. */
  lemma {:induction false} SentNbCountsSide(ds: seq<Datagram>, byClient: bool)
    ensures SentNb(ds, byClient) == |SidePositions(ds, byClient)|
  {
    if |ds| > 0 {
      var pre := DropLast(ds);
      SentNbCountsSide(pre, byClient);
      var n := |ds| - 1;
      if ds[n].sentByClient == byClient {
        assert SidePositions(ds, byClient) == SidePositions(pre, byClient) + {n};
      } else {
        assert SidePositions(ds, byClient) == SidePositions(pre, byClient);
      }
    } else {
      assert SidePositions(ds, byClient) == {};
    }
  }

  predicate ByClient(d: Datagram) {
    d.sentByClient
  }

  predicate ByServer(d: Datagram) {
    !d.sentByClient
  }

  /** Total length of the datagrams at the positions P. */
  function LenAt(ds: seq<Datagram>, P: seq<nat>): nat
    requires forall k :: 0 <= k < |P| ==> P[k] < |ds|
  {
    if |P| == 0 then 0 else LenAt(ds, DropLast(P)) + ds[Last(P)].totalLen
  }

  /** The byte counter of a side is the total length of the datagrams at
      that side's positions. */
  lemma {:induction false} SentLenSumsSide(ds: seq<Datagram>, byClient: bool, keep: Datagram -> bool)
    requires forall d :: keep(d) == (d.sentByClient == byClient)
    ensures SentLen(ds, byClient) == LenAt(ds, Positions(ds, keep))
  {
    if |ds| > 0 {
      var pre := DropLast(ds);
      var n := |ds| - 1;
      var P := Positions(pre, keep);
      SentLenSumsSide(pre, byClient, keep);
      LenAtExtend(pre, ds, P);
      var d := ds[n];
      assert keep(d) == (d.sentByClient == byClient);
      assert SentLen(ds, byClient) == SentLen(pre, byClient) + (if keep(d) then d.totalLen else 0);
      assert Positions(ds, keep) == P + (if keep(d) then [n] else []);
      if keep(d) {
        LenAtSnoc(ds, P, n);
      } else {
        assert P + [] == P;
      }
    }
  }

  lemma LenAtSnoc(ds: seq<Datagram>, P: seq<nat>, n: nat)
    requires n < |ds| && forall k :: 0 <= k < |P| ==> P[k] < |ds|
    ensures LenAt(ds, P + [n]) == LenAt(ds, P) + ds[n].totalLen
  {
    assert DropLast(P + [n]) == P;
  }

  /** Positions inside a prefix read the same datagrams in the whole
      sequence. */
  lemma {:induction false} LenAtExtend(pre: seq<Datagram>, ds: seq<Datagram>, P: seq<nat>)
    requires pre <= ds
    requires forall k :: 0 <= k < |P| ==> P[k] < |pre|
    ensures LenAt(pre, P) == LenAt(ds, P)
  {
    if |P| > 0 {
      LenAtExtend(pre, ds, DropLast(P));
    }
  }
}
