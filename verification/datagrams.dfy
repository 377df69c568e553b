/** Optional values: the source's `None` against a present value. */
module Options {

  datatype Option<+T> = None | Some(value: T)
}

/**
 The datagram record shared by the three analysers (class `Datagram` of
 pasta/connection.py). Times and RTTs are whole microseconds; the classifier's
 snake_case fields (`sent_by_client`, `payload_len`, `rtt`) name the same data
 as the camelCase fields used here.
 */
module Datagrams {
  import opened Options

  /** One captured datagram. `ack` is -1 when the datagram acknowledges
      nothing; `rtt` is the estimated round-trip time slot, `None` until the
      RTT estimator fills it. */
  datatype Datagram = Datagram(
    sentByClient: bool,
    time: int,
    seqNb: int,
    totalLen: nat,
    payloadLen: nat,
    ack: int,
    rtt: Option<int>)
  {
    /** The datagram acknowledges another one (`ack > -1`). */
    predicate CarriesAck() {
      ack > -1
    }

    /** The datagram carries payload (`payloadLen` is truthy in Python). */
    predicate HasPayload() {
      payloadLen != 0
    }
  }

  /** Outcome of an analyser that reads RTTs: the source dereferences the RTT
      slot without a check and raises when it was never filled; `RttUnset`
      stands for that exception. */
  datatype Checked<+T> = Ok(value: T) | RttUnset

  function Last<T>(s: seq<T>): T
    requires |s| > 0
  {
    s[|s| - 1]
  }

  function DropLast<T>(s: seq<T>): seq<T>
    requires |s| > 0
  {
    s[..|s| - 1]
  }

  /** The positions of the datagrams that `keep` selects, ascending: the
      positions a list comprehension with that condition visits. That no
      selected position is missing is PositionsComplete. */
  function Positions(ds: seq<Datagram>, keep: Datagram -> bool): (P: seq<nat>)
    ensures forall k :: 0 <= k < |P| ==> P[k] < |ds| && keep(ds[P[k]])
    ensures forall k, l :: 0 <= k < l < |P| ==> P[k] < P[l]
  {
    if |ds| == 0 then []
    else Positions(DropLast(ds), keep) + (if keep(Last(ds)) then [|ds| - 1] else [])
  }

  /** Every position whose datagram `keep` selects is listed. */
  lemma {:induction false} PositionsComplete(ds: seq<Datagram>, keep: Datagram -> bool, i: nat)
    requires i < |ds| && keep(ds[i])
    ensures i in Positions(ds, keep)
  {
    var P := Positions(DropLast(ds), keep);
    if i == |ds| - 1 {
      assert Positions(ds, keep) == P + [i];
    } else {
      PositionsComplete(DropLast(ds), keep, i);
      assert Positions(ds, keep)[..|P|] == P;
    }
  }

  predicate IsPayload(d: Datagram) {
    d.HasPayload()
  }

  /** fs holds, in order, the datagrams of ds at the positions `keep`
      selects. */
  predicate SelectedFrom(fs: seq<Datagram>, ds: seq<Datagram>, keep: Datagram -> bool)
  {
    var P := Positions(ds, keep);
    |fs| == |P| && forall k :: 0 <= k < |fs| ==> fs[k] == ds[P[k]]
  }

  /** The payload-carrying datagrams, in capture order: the datagram at every
      payload position, and nothing else. */
  function PayloadOnly(ds: seq<Datagram>): (ps: seq<Datagram>)
    ensures |ps| <= |ds|
    ensures forall i :: 0 <= i < |ps| ==> ps[i].HasPayload() && ps[i] in ds
    ensures SelectedFrom(ps, ds, IsPayload)
  {
    if |ds| == 0 then []
    else PayloadOnly(DropLast(ds)) + (if Last(ds).HasPayload() then [Last(ds)] else [])
  }

  /** Filtering twice changes nothing. */
  lemma {:induction false} PayloadOnlyIdempotent(ds: seq<Datagram>)
    ensures PayloadOnly(PayloadOnly(ds)) == PayloadOnly(ds)
  {
    if |ds| > 0 {
      var ps := PayloadOnly(DropLast(ds));
      PayloadOnlyIdempotent(DropLast(ds));
      PayloadOnlyAppend(ps, if Last(ds).HasPayload() then [Last(ds)] else []);
    }
  }

  /** Filtering distributes over concatenation. */
  lemma {:induction false} PayloadOnlyAppend(a: seq<Datagram>, b: seq<Datagram>)
    ensures PayloadOnly(a + b) == PayloadOnly(a) + PayloadOnly(b)
    decreases |b|
  {
    if |b| == 0 {
      assert a + b == a;
    } else {
      assert DropLast(a + b) == a + DropLast(b);
      assert Last(a + b) == Last(b);
      PayloadOnlyAppend(a, DropLast(b));
    }
  }
}
