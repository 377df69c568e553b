/**
 Step 2 of `Connection.compute_RTT` (pasta/connection.py): a forward scan that
 gives an RTT to every datagram step 1 left without one, per direction. A run
 before the first known RTT of a direction copies that RTT, a run between two
 known RTTs is interpolated linearly, a run after the last known RTT copies
 it. `col` is the RTT column step 1 produced; the scan returns the new column.
 */
module RttFilling {
  import opened Options
  import opened Datagrams

  /** Datagram `j` was sent by side `b` and already has an RTT in `col`. */
  predicate Known(ds: seq<Datagram>, col: seq<Option<int>>, b: bool, j: int)
    requires |col| == |ds|
  {
    0 <= j < |ds| && ds[j].sentByClient == b && col[j].Some?
  }

  /** The last datagram of side `b` before position `n` that has an RTT. */
  function PrevKnown(ds: seq<Datagram>, col: seq<Option<int>>, b: bool, n: nat): (r: Option<nat>)
    requires |col| == |ds| && n <= |ds|
    ensures r.Some? ==> r.value < n && Known(ds, col, b, r.value)
    ensures r.Some? ==> forall q :: r.value < q < n ==> !Known(ds, col, b, q)
    ensures r.None? ==> forall q :: 0 <= q < n ==> !Known(ds, col, b, q)
  {
    if n == 0 then None
    else if Known(ds, col, b, n - 1) then Some(n - 1)
    else PrevKnown(ds, col, b, n - 1)
  }

  /** The first datagram of side `b` at or after position `n` that has an RTT. */
  function NextKnown(ds: seq<Datagram>, col: seq<Option<int>>, b: bool, n: nat): (r: Option<nat>)
    requires |col| == |ds| && n <= |ds|
    ensures r.Some? ==> n <= r.value < |ds| && Known(ds, col, b, r.value)
    ensures r.Some? ==> forall q :: n <= q < r.value ==> !Known(ds, col, b, q)
    ensures r.None? ==> forall q :: n <= q < |ds| ==> !Known(ds, col, b, q)
    decreases |ds| - n
  {
    if n == |ds| then None
    else if Known(ds, col, b, n) then Some(n)
    else NextKnown(ds, col, b, n + 1)
  }

  /** The positions in [lo, hi) of the datagrams sent by side `b`, ascending. */
  function SideIndices(ds: seq<Datagram>, b: bool, lo: nat, hi: nat): (r: seq<nat>)
    requires lo <= hi <= |ds|
    ensures forall t :: 0 <= t < |r| ==> lo <= r[t] < hi && ds[r[t]].sentByClient == b
    ensures forall t, u :: 0 <= t < u < |r| ==> r[t] < r[u]
    decreases hi - lo
  {
    if hi == lo then []
    else SideIndices(ds, b, lo, hi - 1) + (if ds[hi - 1].sentByClient == b then [hi - 1] else [])
  }

  /** SideIndices lists every datagram of its side in the range. */
  lemma {:induction false} SideIndicesComplete(ds: seq<Datagram>, b: bool, lo: nat, hi: nat, j: int)
    requires lo <= j < hi <= |ds| && ds[j].sentByClient == b
    ensures j in SideIndices(ds, b, lo, hi)
    decreases hi - lo
  {
    if j < hi - 1 {
      SideIndicesComplete(ds, b, lo, hi - 1, j);
    }
  }

  /** The k-th step of a linear interpolation from `r0` by steps of `diff`. */
  function Interpolated(r0: int, diff: int, k: int): int
  {
    r0 + k * diff
  }

  /** The per-datagram increment of an interpolation from `r0` to `r1`
      across `gap` datagrams (Python 2 floor division of a timedelta). */
  function Slope(r0: int, r1: int, gap: nat): int
  {
    (r1 - r0) / (gap + 1)
  }

  /** The RTT each datagram should end with, stated per datagram from the
      known RTTs of its own side: its own RTT if it has one; otherwise, with
      `p0` and `p1` the nearest earlier and later datagrams of its side that
      have one, the later RTT (no `p0`), the earlier RTT (no `p1`), none
      (neither), or the `pos`-th step of the linear interpolation across the
      `gap` datagrams of its side strictly between `p0` and `p1`. */
  function ExpectedRtt(ds: seq<Datagram>, col: seq<Option<int>>, j: nat): Option<int>
    requires |col| == |ds| && j < |ds|
  {
    var b := ds[j].sentByClient;
    if col[j].Some? then col[j]
    else match (PrevKnown(ds, col, b, j), NextKnown(ds, col, b, j + 1))
      case (None, None) => None
      case (None, Some(p1)) => col[p1]
      case (Some(p0), None) => col[p0]
      case (Some(p0), Some(p1)) =>
        var r0 := col[p0].value;
        var r1 := col[p1].value;
        var gap := |SideIndices(ds, b, p0 + 1, p1)|;
        var pos := |SideIndices(ds, b, p0 + 1, j + 1)|;
        Some(Interpolated(r0, Slope(r0, r1, gap), pos))
  }

  // ---------------------------------------------------------------------
  // The scan as the source writes it
  // ---------------------------------------------------------------------

  /** Per-direction state of the scan: `last_RTT` and `empty_RTTs` (the
      positions still waiting for an RTT). */
  datatype Lane = Lane(lastRtt: Option<int>, emptyRtts: seq<nat>)

  datatype FillState = FillState(client: Lane, server: Lane, out: seq<Option<int>>)

  function LaneOf(st: FillState, b: bool): Lane
  {
    if b then st.client else st.server
  }

  function WithLane(st: FillState, b: bool, l: Lane): FillState
  {
    if b then st.(client := l) else st.(server := l)
  }

  predicate IndicesBelow(idx: seq<nat>, n: int)
  {
    forall t :: 0 <= t < |idx| ==> idx[t] < n
  }

  predicate Ascending(idx: seq<nat>)
  {
    forall t, u :: 0 <= t < u < |idx| ==> idx[t] < idx[u]
  }

  /** Gives every listed position the RTT `r` (the flat copies). */
  function FlatFill(out: seq<Option<int>>, idx: seq<nat>, r: int): (o: seq<Option<int>>)
    requires IndicesBelow(idx, |out|)
    ensures |o| == |out|
    ensures forall t :: 0 <= t < |idx| ==> o[idx[t]] == Some(r)
    ensures forall j :: 0 <= j < |out| && j !in idx ==> o[j] == out[j]
    decreases |idx|
  {
    if |idx| == 0 then out else FlatFill(out[idx[0] := Some(r)], idx[1..], r)
  }

  /** Gives the listed positions `r0 + i * diff`, `r0 + (i + 1) * diff`, ...
      in order (the interpolation loop, started with i = 1). */
  function Interpolate(out: seq<Option<int>>, idx: seq<nat>, r0: int, diff: int, i: int): (o: seq<Option<int>>)
    requires IndicesBelow(idx, |out|) && Ascending(idx)
    ensures |o| == |out|
    ensures forall t :: 0 <= t < |idx| ==> o[idx[t]] == Some(Interpolated(r0, diff, i + t))
    ensures forall j :: 0 <= j < |out| && j !in idx ==> o[j] == out[j]
    decreases |idx|
  {
    if |idx| == 0 then out
    else
      Interpolate(out[idx[0] := Some(Interpolated(r0, diff, i))], idx[1..], r0, diff, i + 1)
  }

  predicate WellFormed(st: FillState, n: nat, len: nat)
  {
    && |st.out| == len
    && IndicesBelow(st.client.emptyRtts, n) && Ascending(st.client.emptyRtts)
    && IndicesBelow(st.server.emptyRtts, n) && Ascending(st.server.emptyRtts)
  }

  /** One iteration of the forward loop, on datagram `n`. */
  function FillStep(ds: seq<Datagram>, col: seq<Option<int>>, n: nat, st: FillState): (st': FillState)
    requires |col| == |ds| && n < |ds| && WellFormed(st, n, |ds|)
    ensures WellFormed(st', n + 1, |ds|)
  {
    var b := ds[n].sentByClient;
    var lane := LaneOf(st, b);
    match col[n]
    case None =>
      WithLane(st, b, lane.(emptyRtts := lane.emptyRtts + [n]))
    case Some(r) =>
      var out :=
        if |lane.emptyRtts| == 0 then st.out
        else match lane.lastRtt
          case None => FlatFill(st.out, lane.emptyRtts, r)
          case Some(r0) =>
            Interpolate(st.out, lane.emptyRtts, r0, Slope(r0, r, |lane.emptyRtts|), 1);
      WithLane(st.(out := out), b, Lane(Some(r), []))
  }

  /** The state after the forward loop has visited ds[..n]. */
  function FillRun(ds: seq<Datagram>, col: seq<Option<int>>, n: nat): (st: FillState)
    requires |col| == |ds| && n <= |ds|
    ensures WellFormed(st, n, |ds|)
  {
    if n == 0 then FillState(Lane(None, []), Lane(None, []), col)
    else FillStep(ds, col, n - 1, FillRun(ds, col, n - 1))
  }

  /** The closing loop over both ways: a lane with a last RTT hands it to
      the datagrams still waiting; a lane without one leaves them unset. */
  function FlushLane(out: seq<Option<int>>, lane: Lane): (o: seq<Option<int>>)
    requires IndicesBelow(lane.emptyRtts, |out|)
    ensures |o| == |out|
  {
    match lane.lastRtt
    case None => out
    case Some(r) => FlatFill(out, lane.emptyRtts, r)
  }

  /** Step 2: the RTT column after the forward loop and the closing loop. */
  function FillPass(ds: seq<Datagram>, col: seq<Option<int>>): (out: seq<Option<int>>)
    requires |col| == |ds|
    ensures |out| == |ds|
  {
    var st := FillRun(ds, col, |ds|);
    FlushLane(FlushLane(st.out, st.client), st.server)
  }

  // ---------------------------------------------------------------------
  // The scan computes ExpectedRtt
  // ---------------------------------------------------------------------

  /** Where the run of side `b` still waiting for an RTT starts at `n`. */
  function RunStart(ds: seq<Datagram>, col: seq<Option<int>>, b: bool, n: nat): nat
    requires |col| == |ds| && n <= |ds|
  {
    match PrevKnown(ds, col, b, n)
    case None => 0
    case Some(p) => p + 1
  }

  function LastKnownRtt(ds: seq<Datagram>, col: seq<Option<int>>, b: bool, n: nat): Option<int>
    requires |col| == |ds| && n <= |ds|
  {
    match PrevKnown(ds, col, b, n)
    case None => None
    case Some(p) => col[p]
  }

  /** Datagram `j` is still waiting for an RTT once ds[..n] has been visited. */
  predicate Waiting(ds: seq<Datagram>, col: seq<Option<int>>, n: nat, j: int)
    requires |col| == |ds| && n <= |ds|
  {
    0 <= j < n && j >= RunStart(ds, col, ds[j].sentByClient, n)
  }

  predicate LaneInv(ds: seq<Datagram>, col: seq<Option<int>>, n: nat, st: FillState, b: bool)
    requires |col| == |ds| && n <= |ds|
  {
    LaneOf(st, b) == Lane(LastKnownRtt(ds, col, b, n), SideIndices(ds, b, RunStart(ds, col, b, n), n))
  }

  predicate FillInv(ds: seq<Datagram>, col: seq<Option<int>>, n: nat, st: FillState)
    requires |col| == |ds| && n <= |ds|
  {
    && |st.out| == |ds|
    && LaneInv(ds, col, n, st, true)
    && LaneInv(ds, col, n, st, false)
    && PendingAsIs(ds, col, n, st.out)
    && DoneAsExpected(ds, col, n, st.out)
  }

  /** Datagrams not yet visited, or still waiting, keep their step-1 RTT. */
  predicate PendingAsIs(ds: seq<Datagram>, col: seq<Option<int>>, n: nat, out: seq<Option<int>>)
    requires |col| == |ds| && n <= |ds|
  {
    |out| == |ds| && forall j :: 0 <= j < |ds| && (j >= n || Waiting(ds, col, n, j)) ==> out[j] == col[j]
  }

  /** Visited datagrams that no longer wait hold their expected RTT. */
  predicate DoneAsExpected(ds: seq<Datagram>, col: seq<Option<int>>, n: nat, out: seq<Option<int>>)
    requires |col| == |ds| && n <= |ds|
  {
    |out| == |ds| && forall j :: 0 <= j < n && !Waiting(ds, col, n, j) ==> out[j] == ExpectedRtt(ds, col, j)
  }

  /** PrevKnown does not move across positions without a known RTT. */
  lemma {:induction false} PrevKnownSkips(ds: seq<Datagram>, col: seq<Option<int>>, b: bool, j: nat, n: nat)
    requires |col| == |ds| && j <= n <= |ds|
    requires forall q :: j <= q < n ==> !Known(ds, col, b, q)
    ensures PrevKnown(ds, col, b, j) == PrevKnown(ds, col, b, n)
    decreases n - j
  {
    if j < n {
      PrevKnownSkips(ds, col, b, j, n - 1);
    }
  }

  /** NextKnown does not move across positions without a known RTT. */
  lemma {:induction false} NextKnownSkips(ds: seq<Datagram>, col: seq<Option<int>>, b: bool, j: nat, n: nat)
    requires |col| == |ds| && j <= n <= |ds|
    requires forall q :: j <= q < n ==> !Known(ds, col, b, q)
    ensures NextKnown(ds, col, b, j) == NextKnown(ds, col, b, n)
    decreases n - j
  {
    if j < n {
      NextKnownSkips(ds, col, b, j + 1, n);
    }
  }

  /** The prefix of SideIndices up to its t-th element is the SideIndices of
      the shorter range: the t-th element is the (t+1)-th of its side. */
  lemma {:induction false} SideIndicesPrefix(ds: seq<Datagram>, b: bool, lo: nat, hi: nat, t: nat)
    requires lo <= hi <= |ds| && t < |SideIndices(ds, b, lo, hi)|
    ensures SideIndices(ds, b, lo, hi)[t] + 1 <= hi
    ensures SideIndices(ds, b, lo, SideIndices(ds, b, lo, hi)[t] + 1) == SideIndices(ds, b, lo, hi)[..t + 1]
    decreases hi - lo, 1
  {
    var r := SideIndices(ds, b, lo, hi);
    assert lo <= r[t] < hi;
    if t < |SideIndices(ds, b, lo, hi - 1)| {
      SideIndicesPrefixEarlier(ds, b, lo, hi, t);
    } else {
      SideIndicesPrefixLast(ds, b, lo, hi, t);
    }
  }

  /** The prefix property for an index that was already in the shorter
      range. */
  lemma {:induction false} SideIndicesPrefixEarlier(ds: seq<Datagram>, b: bool, lo: nat, hi: nat, t: nat)
    requires lo < hi <= |ds| && t < |SideIndices(ds, b, lo, hi - 1)|
    ensures t < |SideIndices(ds, b, lo, hi)| && SideIndices(ds, b, lo, hi)[t] + 1 <= hi
    ensures SideIndices(ds, b, lo, SideIndices(ds, b, lo, hi)[t] + 1) == SideIndices(ds, b, lo, hi)[..t + 1]
    decreases hi - lo, 0
  {
    var r := SideIndices(ds, b, lo, hi);
    var r' := SideIndices(ds, b, lo, hi - 1);
    var tail: seq<nat> := if ds[hi - 1].sentByClient == b then [hi - 1] else [];
    assert r == r' + tail;
    assert r[t] == r'[t];
    SideIndicesPrefix(ds, b, lo, hi - 1, t);
    assert r[..t + 1] == r'[..t + 1];
  }

  /** The prefix property for the index added last. */
  lemma SideIndicesPrefixLast(ds: seq<Datagram>, b: bool, lo: nat, hi: nat, t: nat)
    requires lo < hi <= |ds| && |SideIndices(ds, b, lo, hi - 1)| <= t < |SideIndices(ds, b, lo, hi)|
    ensures SideIndices(ds, b, lo, hi)[t] + 1 == hi
    ensures SideIndices(ds, b, lo, SideIndices(ds, b, lo, hi)[t] + 1) == SideIndices(ds, b, lo, hi)[..t + 1]
  {
    var r := SideIndices(ds, b, lo, hi);
    var r' := SideIndices(ds, b, lo, hi - 1);
    assert ds[hi - 1].sentByClient == b;
    assert r == r' + [hi - 1];
    assert t == |r'| && r[t] == hi - 1;
    assert r[..t + 1] == r;
  }

  /** Waiting datagrams have no RTT in `col`. */
  lemma WaitingIsUnknown(ds: seq<Datagram>, col: seq<Option<int>>, n: nat, j: nat)
    requires |col| == |ds| && n <= |ds| && Waiting(ds, col, n, j)
    ensures col[j].None?
  {
    var b := ds[j].sentByClient;
    assert !Known(ds, col, b, j);
  }

  /** Seen from a datagram of the run that `n` closes, the nearest earlier
      known RTT of its side is the one before the run and the nearest later
      one is `n` itself. */
  lemma RunNeighbours(ds: seq<Datagram>, col: seq<Option<int>>, b: bool, n: nat, j: nat)
    requires |col| == |ds| && n < |ds| && b == ds[n].sentByClient
    requires j < n && ds[j].sentByClient == b
    requires RunStart(ds, col, b, n) <= j
    ensures col[j].None?
    ensures PrevKnown(ds, col, b, j) == PrevKnown(ds, col, b, n)
    ensures col[n].Some? ==> NextKnown(ds, col, b, j + 1) == Some(n)
  {
    assert forall q :: j <= q < n ==> !Known(ds, col, b, q);
    assert !Known(ds, col, b, j);
    PrevKnownSkips(ds, col, b, j, n);
    NextKnownSkips(ds, col, b, j + 1, n);
  }

  /** The value the loop gives to the t-th waiting datagram of a run closed
      at `n` is the expected one. */
  lemma RunValue(ds: seq<Datagram>, col: seq<Option<int>>, b: bool, n: nat, t: nat)
    requires |col| == |ds| && n < |ds| && b == ds[n].sentByClient && col[n].Some?
    requires t < |SideIndices(ds, b, RunStart(ds, col, b, n), n)|
    ensures var e := SideIndices(ds, b, RunStart(ds, col, b, n), n);
            var r := col[n].value;
            ExpectedRtt(ds, col, e[t]) == match PrevKnown(ds, col, b, n)
              case None => Some(r)
              case Some(p0) => Some(Interpolated(col[p0].value, Slope(col[p0].value, r, |e|), 1 + t))
  {
    var start := RunStart(ds, col, b, n);
    var e := SideIndices(ds, b, start, n);
    var j := e[t];
    RunNeighbours(ds, col, b, n, j);
    SideIndicesPrefix(ds, b, start, n, t);
    var p1 := NextKnown(ds, col, b, j + 1);
    assert p1 == Some(n);
    match PrevKnown(ds, col, b, n)
    case None =>
      assert ExpectedRtt(ds, col, j) == col[n];
    case Some(p0) =>
      assert start == p0 + 1;
      assert |SideIndices(ds, b, p0 + 1, j + 1)| == t + 1;
  }

  /** A step on a datagram of side `b` leaves the other side's run alone. */
  lemma OtherSideUnmoved(ds: seq<Datagram>, col: seq<Option<int>>, n: nat, b: bool)
    requires |col| == |ds| && n < |ds| && ds[n].sentByClient != b
    ensures PrevKnown(ds, col, b, n + 1) == PrevKnown(ds, col, b, n)
    ensures RunStart(ds, col, b, n + 1) == RunStart(ds, col, b, n)
    ensures LastKnownRtt(ds, col, b, n + 1) == LastKnownRtt(ds, col, b, n)
    ensures SideIndices(ds, b, RunStart(ds, col, b, n), n + 1) == SideIndices(ds, b, RunStart(ds, col, b, n), n)
  {
    assert !Known(ds, col, b, n);
  }

  /** Visiting a datagram without an RTT moves no run start, so it waits,
      and so does everything that waited before. */
  lemma UnknownStepWaiting(ds: seq<Datagram>, col: seq<Option<int>>, n: nat, j: nat)
    requires |col| == |ds| && n < |ds| && col[n].None? && j <= n
    ensures Waiting(ds, col, n + 1, j) == (j == n || Waiting(ds, col, n, j))
  {
    var b := ds[n].sentByClient;
    OtherSideUnmoved(ds, col, n, !b);
    assert !Known(ds, col, b, n);
    assert PrevKnown(ds, col, b, n + 1) == PrevKnown(ds, col, b, n);
  }

  /** The step on a datagram without an RTT appends it to its side's lane. */
  lemma UnknownStepLanes(ds: seq<Datagram>, col: seq<Option<int>>, b: bool, n: nat, st: FillState)
    requires |col| == |ds| && n < |ds| && b == ds[n].sentByClient && WellFormed(st, n, |ds|)
    requires LaneInv(ds, col, n, st, b) && LaneInv(ds, col, n, st, !b)
    requires col[n].None?
    ensures LaneInv(ds, col, n + 1, FillStep(ds, col, n, st), b)
    ensures LaneInv(ds, col, n + 1, FillStep(ds, col, n, st), !b)
  {
    var lane := LaneOf(st, b);
    var st' := FillStep(ds, col, n, st);
    assert st' == WithLane(st, b, Lane(lane.lastRtt, lane.emptyRtts + [n]));
    OtherSideUnmoved(ds, col, n, !b);
    assert LaneOf(st', !b) == LaneOf(st, !b);
    assert !Known(ds, col, b, n);
    assert PrevKnown(ds, col, b, n + 1) == PrevKnown(ds, col, b, n);
    var start := RunStart(ds, col, b, n);
    assert RunStart(ds, col, b, n + 1) == start <= n;
    assert SideIndices(ds, b, start, n + 1) == SideIndices(ds, b, start, n) + [n];
  }

  /** The step on a datagram without an RTT adds it to its side's run. */
  lemma FillStepUnknown(ds: seq<Datagram>, col: seq<Option<int>>, n: nat, st: FillState)
    requires |col| == |ds| && n < |ds| && WellFormed(st, n, |ds|) && FillInv(ds, col, n, st)
    requires col[n].None?
    ensures FillInv(ds, col, n + 1, FillStep(ds, col, n, st))
  {
    var out := FillStep(ds, col, n, st).out;
    UnknownStepLanes(ds, col, ds[n].sentByClient, n, st);
    assert out == st.out;
    forall j | 0 <= j < |ds| && (j >= n + 1 || Waiting(ds, col, n + 1, j))
      ensures out[j] == col[j]
    {
      if j <= n {
        UnknownStepWaiting(ds, col, n, j);
      }
    }
    forall j | 0 <= j < n + 1 && !Waiting(ds, col, n + 1, j)
      ensures out[j] == ExpectedRtt(ds, col, j)
    {
      UnknownStepWaiting(ds, col, n, j);
    }
  }

  /** A run with no known RTT before it gets the closing RTT everywhere. */
  lemma FlatRunExpected(ds: seq<Datagram>, col: seq<Option<int>>, b: bool, n: nat, out: seq<Option<int>>)
    requires |col| == |ds| && n < |ds| && b == ds[n].sentByClient && col[n].Some? && |out| == |ds|
    requires PrevKnown(ds, col, b, n).None?
    ensures var e := SideIndices(ds, b, RunStart(ds, col, b, n), n);
            forall t :: 0 <= t < |e| ==> FlatFill(out, e, col[n].value)[e[t]] == ExpectedRtt(ds, col, e[t])
  {
    var e := SideIndices(ds, b, RunStart(ds, col, b, n), n);
    forall t | 0 <= t < |e|
      ensures FlatFill(out, e, col[n].value)[e[t]] == ExpectedRtt(ds, col, e[t])
    {
      RunValue(ds, col, b, n, t);
    }
  }

  /** A run between two known RTTs gets the interpolated values. */
  lemma InterpolatedRunExpected(ds: seq<Datagram>, col: seq<Option<int>>, b: bool, n: nat, out: seq<Option<int>>, p0: nat)
    requires |col| == |ds| && n < |ds| && b == ds[n].sentByClient && col[n].Some? && |out| == |ds|
    requires PrevKnown(ds, col, b, n) == Some(p0)
    ensures var e := SideIndices(ds, b, RunStart(ds, col, b, n), n);
            var r0 := col[p0].value;
            var diff := Slope(r0, col[n].value, |e|);
            forall t :: 0 <= t < |e| ==> Interpolate(out, e, r0, diff, 1)[e[t]] == ExpectedRtt(ds, col, e[t])
  {
    var e := SideIndices(ds, b, RunStart(ds, col, b, n), n);
    var r0 := col[p0].value;
    var diff := Slope(r0, col[n].value, |e|);
    var o := Interpolate(out, e, r0, diff, 1);
    forall t | 0 <= t < |e|
      ensures o[e[t]] == ExpectedRtt(ds, col, e[t])
    {
      RunValue(ds, col, b, n, t);
      assert o[e[t]] == Some(Interpolated(r0, diff, 1 + t));
    }
  }

  lemma ClosedRunOut(ds: seq<Datagram>, col: seq<Option<int>>, b: bool, n: nat, st: FillState)
    requires |col| == |ds| && n < |ds| && b == ds[n].sentByClient && WellFormed(st, n, |ds|)
    requires LaneInv(ds, col, n, st, b)
    requires col[n].Some?
    ensures var e := SideIndices(ds, b, RunStart(ds, col, b, n), n);
            var out' := FillStep(ds, col, n, st).out;
            && (forall j :: 0 <= j < |ds| && j !in e ==> out'[j] == st.out[j])
            && (forall t :: 0 <= t < |e| ==> out'[e[t]] == ExpectedRtt(ds, col, e[t]))
  {
    var e := SideIndices(ds, b, RunStart(ds, col, b, n), n);
    var lane := LaneOf(st, b);
    assert lane.emptyRtts == e;
    if |e| > 0 {
      match PrevKnown(ds, col, b, n)
      case None =>
        assert lane.lastRtt.None?;
        FlatRunExpected(ds, col, b, n, st.out);
      case Some(p0) =>
        assert lane.lastRtt == col[p0];
        InterpolatedRunExpected(ds, col, b, n, st.out, p0);
    }
  }

  /** Once `n` (with an RTT) is visited, no datagram of its side waits and
      the other side's waiting set is unchanged. */
  lemma KnownStepWaiting(ds: seq<Datagram>, col: seq<Option<int>>, b: bool, n: nat, j: nat)
    requires |col| == |ds| && n < |ds| && b == ds[n].sentByClient && col[n].Some? && j <= n
    ensures ds[j].sentByClient == b ==> !Waiting(ds, col, n + 1, j)
    ensures ds[j].sentByClient != b && j < n ==> Waiting(ds, col, n + 1, j) == Waiting(ds, col, n, j)
  {
    OtherSideUnmoved(ds, col, n, !b);
    assert Known(ds, col, b, n);
    assert PrevKnown(ds, col, b, n + 1) == Some(n);
  }

  /** The step on a datagram with an RTT restarts its side's lane. */
  lemma KnownStepLanes(ds: seq<Datagram>, col: seq<Option<int>>, b: bool, n: nat, st: FillState)
    requires |col| == |ds| && n < |ds| && b == ds[n].sentByClient && WellFormed(st, n, |ds|)
    requires LaneInv(ds, col, n, st, !b)
    requires col[n].Some?
    ensures LaneInv(ds, col, n + 1, FillStep(ds, col, n, st), b)
    ensures LaneInv(ds, col, n + 1, FillStep(ds, col, n, st), !b)
  {
    OtherSideUnmoved(ds, col, n, !b);
    assert Known(ds, col, b, n);
    assert PrevKnown(ds, col, b, n + 1) == Some(n);
  }

  /** After a step on a datagram with an RTT, the datagrams still pending
      keep their step-1 RTT. */
  lemma KnownStepPending(ds: seq<Datagram>, col: seq<Option<int>>, b: bool, n: nat, st: FillState)
    requires |col| == |ds| && n < |ds| && b == ds[n].sentByClient && WellFormed(st, n, |ds|)
    requires LaneInv(ds, col, n, st, b) && PendingAsIs(ds, col, n, st.out)
    requires col[n].Some?
    ensures PendingAsIs(ds, col, n + 1, FillStep(ds, col, n, st).out)
  {
    var out' := FillStep(ds, col, n, st).out;
    var e := SideIndices(ds, b, RunStart(ds, col, b, n), n);
    ClosedRunOut(ds, col, b, n, st);
    forall j | 0 <= j < |ds| && (j >= n + 1 || Waiting(ds, col, n + 1, j))
      ensures out'[j] == col[j]
    {
      if j < n + 1 {
        KnownStepWaiting(ds, col, b, n, j);
      }
      assert j !in e;
    }
  }

  /** After a step on a datagram with an RTT, every visited datagram that no
      longer waits holds its expected RTT. */
  lemma KnownStepDone(ds: seq<Datagram>, col: seq<Option<int>>, b: bool, n: nat, st: FillState)
    requires |col| == |ds| && n < |ds| && b == ds[n].sentByClient && WellFormed(st, n, |ds|)
    requires LaneInv(ds, col, n, st, b) && PendingAsIs(ds, col, n, st.out) && DoneAsExpected(ds, col, n, st.out)
    requires col[n].Some?
    ensures DoneAsExpected(ds, col, n + 1, FillStep(ds, col, n, st).out)
  {
    var out' := FillStep(ds, col, n, st).out;
    var start := RunStart(ds, col, b, n);
    var e := SideIndices(ds, b, start, n);
    ClosedRunOut(ds, col, b, n, st);
    forall j | 0 <= j < n + 1 && !Waiting(ds, col, n + 1, j)
      ensures out'[j] == ExpectedRtt(ds, col, j)
    {
      KnownStepWaiting(ds, col, b, n, j);
      if ds[j].sentByClient == b && start <= j < n {
        SideIndicesComplete(ds, b, start, n, j);
        var t :| 0 <= t < |e| && e[t] == j;
      } else if j == n {
        assert j !in e;
      } else {
        assert j !in e;
        assert !Waiting(ds, col, n, j);
      }
    }
  }

  /** The step on a datagram with an RTT closes its side's run. */
  lemma FillStepKnown(ds: seq<Datagram>, col: seq<Option<int>>, n: nat, st: FillState)
    requires |col| == |ds| && n < |ds| && WellFormed(st, n, |ds|) && FillInv(ds, col, n, st)
    requires col[n].Some?
    ensures FillInv(ds, col, n + 1, FillStep(ds, col, n, st))
  {
    var b := ds[n].sentByClient;
    KnownStepLanes(ds, col, b, n, st);
    KnownStepPending(ds, col, b, n, st);
    KnownStepDone(ds, col, b, n, st);
  }

  lemma FillStepKeepsInv(ds: seq<Datagram>, col: seq<Option<int>>, n: nat, st: FillState)
    requires |col| == |ds| && n < |ds| && WellFormed(st, n, |ds|) && FillInv(ds, col, n, st)
    ensures FillInv(ds, col, n + 1, FillStep(ds, col, n, st))
  {
    if col[n].None? {
      FillStepUnknown(ds, col, n, st);
    } else {
      FillStepKnown(ds, col, n, st);
    }
  }

  lemma {:induction false} FillRunInv(ds: seq<Datagram>, col: seq<Option<int>>, n: nat)
    requires |col| == |ds| && n <= |ds|
    ensures FillInv(ds, col, n, FillRun(ds, col, n))
  {
    if n > 0 {
      var m := n - 1;
      var st := FillRun(ds, col, m);
      FillRunInv(ds, col, m);
      FillStepKeepsInv(ds, col, m, st);
      assert m + 1 == n && FillRun(ds, col, n) == FillStep(ds, col, m, st);
    } else {
      FillInvInitial(ds, col);
    }
  }

  /** Before the scan both lanes are empty and nothing has changed. */
  lemma FillInvInitial(ds: seq<Datagram>, col: seq<Option<int>>)
    requires |col| == |ds|
    ensures FillInv(ds, col, 0, FillRun(ds, col, 0))
  {
  }

  /** Membership in SideIndices, both ways. */
  lemma SideIndicesMember(ds: seq<Datagram>, b: bool, lo: nat, hi: nat, j: int)
    requires lo <= hi <= |ds|
    ensures j in SideIndices(ds, b, lo, hi) <==> lo <= j < hi && ds[j].sentByClient == b
  {
    if lo <= j < hi && ds[j].sentByClient == b {
      SideIndicesComplete(ds, b, lo, hi, j);
    }
  }

  /** A datagram still waiting at the end of the scan has no later known RTT
      of its side, so it expects the last RTT its side saw, if any. */
  lemma TrailingValue(ds: seq<Datagram>, col: seq<Option<int>>, b: bool, j: nat)
    requires |col| == |ds| && j < |ds| && ds[j].sentByClient == b
    requires RunStart(ds, col, b, |ds|) <= j
    ensures col[j].None?
    ensures ExpectedRtt(ds, col, j) == LastKnownRtt(ds, col, b, |ds|)
  {
    assert forall q :: j <= q < |ds| ==> !Known(ds, col, b, q);
    assert !Known(ds, col, b, j);
    PrevKnownSkips(ds, col, b, j, |ds|);
    NextKnownSkips(ds, col, b, j + 1, |ds|);
  }

  /** The closing loop hands each waiting datagram of a lane its expected
      RTT and touches nothing else. */
  lemma FlushLaneExpected(ds: seq<Datagram>, col: seq<Option<int>>, out: seq<Option<int>>, b: bool, lane: Lane)
    requires |col| == |ds| && |out| == |ds|
    requires lane == Lane(LastKnownRtt(ds, col, b, |ds|), SideIndices(ds, b, RunStart(ds, col, b, |ds|), |ds|))
    requires forall t :: 0 <= t < |lane.emptyRtts| ==> out[lane.emptyRtts[t]] == col[lane.emptyRtts[t]]
    ensures IndicesBelow(lane.emptyRtts, |out|)
    ensures forall j :: 0 <= j < |ds| && j !in lane.emptyRtts ==> FlushLane(out, lane)[j] == out[j]
    ensures forall t :: 0 <= t < |lane.emptyRtts| ==>
              FlushLane(out, lane)[lane.emptyRtts[t]] == ExpectedRtt(ds, col, lane.emptyRtts[t])
  {
    var e := lane.emptyRtts;
    var o := FlushLane(out, lane);
    forall t | 0 <= t < |e|
      ensures o[e[t]] == ExpectedRtt(ds, col, e[t])
    {
      TrailingValue(ds, col, b, e[t]);
    }
  }

  /** The state the forward loop ends in satisfies the invariant with both
      lanes holding the datagrams still waiting. */
  lemma EndOfScan(ds: seq<Datagram>, col: seq<Option<int>>, b: bool, j: nat)
    requires |col| == |ds| && j < |ds|
    ensures var st := FillRun(ds, col, |ds|);
            j in LaneOf(st, b).emptyRtts <==> ds[j].sentByClient == b && Waiting(ds, col, |ds|, j)
  {
    FillRunInv(ds, col, |ds|);
    SideIndicesMember(ds, b, RunStart(ds, col, b, |ds|), |ds|, j);
  }

  /** The client flush leaves every waiting server datagram at its step-1
      RTT. */
  lemma ClientFlushKeepsServer(ds: seq<Datagram>, col: seq<Option<int>>)
    requires |col| == |ds|
    ensures var st := FillRun(ds, col, |ds|);
            var o1 := FlushLane(st.out, st.client);
            forall t :: 0 <= t < |st.server.emptyRtts| ==> o1[st.server.emptyRtts[t]] == col[st.server.emptyRtts[t]]
  {
    var st := FillRun(ds, col, |ds|);
    FillRunInv(ds, col, |ds|);
    var o1 := FlushLane(st.out, st.client);
    forall t | 0 <= t < |st.server.emptyRtts|
      ensures o1[st.server.emptyRtts[t]] == col[st.server.emptyRtts[t]]
    {
      var j := st.server.emptyRtts[t];
      EndOfScan(ds, col, true, j);
      EndOfScan(ds, col, false, j);
      FlushLaneExpected(ds, col, st.out, true, st.client);
    }
  }

  /** Step 2 gives datagram `j` exactly its ExpectedRtt. */
  lemma FillPassAt(ds: seq<Datagram>, col: seq<Option<int>>, j: nat)
    requires |col| == |ds| && j < |ds|
    ensures FillPass(ds, col)[j] == ExpectedRtt(ds, col, j)
  {
    var st := FillRun(ds, col, |ds|);
    FillRunInv(ds, col, |ds|);
    var o1 := FlushLane(st.out, st.client);
    ClientFlushKeepsServer(ds, col);
    FlushLaneExpected(ds, col, st.out, true, st.client);
    FlushLaneExpected(ds, col, o1, false, st.server);
    EndOfScan(ds, col, true, j);
    EndOfScan(ds, col, false, j);
    if Waiting(ds, col, |ds|, j) {
      var e := LaneOf(st, ds[j].sentByClient).emptyRtts;
      var t :| 0 <= t < |e| && e[t] == j;
    }
  }

  /** Step 2 computes, for every datagram, exactly its ExpectedRtt. */
  lemma FillPassIsExpected(ds: seq<Datagram>, col: seq<Option<int>>)
    requires |col| == |ds|
    ensures forall j :: 0 <= j < |ds| ==> FillPass(ds, col)[j] == ExpectedRtt(ds, col, j)
  {
    forall j | 0 <= j < |ds|
      ensures FillPass(ds, col)[j] == ExpectedRtt(ds, col, j)
    {
      FillPassAt(ds, col, j);
    }
  }

  // ---------------------------------------------------------------------
  // Consequences
  // ---------------------------------------------------------------------

  /** A datagram that already has an RTT keeps it through step 2. */
  lemma FillKeepsKnown(ds: seq<Datagram>, col: seq<Option<int>>, j: nat)
    requires |col| == |ds| && j < |ds| && col[j].Some?
    ensures FillPass(ds, col)[j] == col[j]
  {
    FillPassAt(ds, col, j);
  }

  /** A datagram before the first RTT of its direction gets that RTT. */
  lemma LeadingRunCopiesFirst(ds: seq<Datagram>, col: seq<Option<int>>, j: nat, p1: nat)
    requires |col| == |ds| && j < p1 < |ds| && ds[p1].sentByClient == ds[j].sentByClient
    requires col[p1].Some?
    requires forall q :: 0 <= q < p1 && ds[q].sentByClient == ds[j].sentByClient ==> col[q].None?
    ensures FillPass(ds, col)[j] == col[p1]
  {
    var b := ds[j].sentByClient;
    FillPassAt(ds, col, j);
    assert Known(ds, col, b, p1);
    assert PrevKnown(ds, col, b, j).None?;
    assert NextKnown(ds, col, b, j + 1) == Some(p1);
  }

  /** A datagram after the last RTT of its direction gets that RTT. */
  lemma TrailingRunCopiesLast(ds: seq<Datagram>, col: seq<Option<int>>, p0: nat, j: nat)
    requires |col| == |ds| && p0 < j < |ds| && ds[p0].sentByClient == ds[j].sentByClient
    requires col[p0].Some?
    requires forall q :: p0 < q < |ds| && ds[q].sentByClient == ds[j].sentByClient ==> col[q].None?
    ensures FillPass(ds, col)[j] == col[p0]
  {
    var b := ds[j].sentByClient;
    FillPassAt(ds, col, j);
    assert Known(ds, col, b, p0);
    assert PrevKnown(ds, col, b, j) == Some(p0);
    assert NextKnown(ds, col, b, j + 1).None?;
  }

  /** The i-th of the k datagrams of a direction between two RTTs r0 and r1
      gets r0 + i * ((r1 - r0) / (k + 1)): the step is rounded down once,
      before it is multiplied. */
  lemma InteriorRunInterpolates(ds: seq<Datagram>, col: seq<Option<int>>, p0: nat, j: nat, p1: nat)
    requires |col| == |ds| && p0 < j < p1 < |ds|
    requires ds[p0].sentByClient == ds[j].sentByClient == ds[p1].sentByClient
    requires col[p0].Some? && col[p1].Some?
    requires forall q :: p0 < q < p1 && ds[q].sentByClient == ds[j].sentByClient ==> col[q].None?
    ensures var b := ds[j].sentByClient;
            var k := |SideIndices(ds, b, p0 + 1, p1)|;
            var i := |SideIndices(ds, b, p0 + 1, j + 1)|;
            var r0 := col[p0].value;
            FillPass(ds, col)[j] == Some(Interpolated(r0, Slope(r0, col[p1].value, k), i))
  {
    FillPassAt(ds, col, j);
    InteriorExpected(ds, col, ds[j].sentByClient, p0, j, p1);
  }

  /** The reference value of an interior datagram is the interpolation
      between its neighbours. */
  lemma InteriorExpected(ds: seq<Datagram>, col: seq<Option<int>>, b: bool, p0: nat, j: nat, p1: nat)
    requires |col| == |ds| && p0 < j < p1 < |ds| && b == ds[j].sentByClient
    requires ds[p0].sentByClient == b && ds[p1].sentByClient == b
    requires col[p0].Some? && col[p1].Some?
    requires forall q :: p0 < q < p1 && ds[q].sentByClient == b ==> col[q].None?
    ensures var r0 := col[p0].value;
            ExpectedRtt(ds, col, j)
            == Some(Interpolated(r0, Slope(r0, col[p1].value, |SideIndices(ds, b, p0 + 1, p1)|),
                                 |SideIndices(ds, b, p0 + 1, j + 1)|))
  {
    InteriorNeighbours(ds, col, b, p0, j, p1);
  }

  /** The known neighbours of an interior datagram are the two ends of
      its run. */
  lemma InteriorNeighbours(ds: seq<Datagram>, col: seq<Option<int>>, b: bool, p0: nat, j: nat, p1: nat)
    requires |col| == |ds| && p0 < j < p1 < |ds|
    requires ds[p0].sentByClient == b && ds[p1].sentByClient == b
    requires col[p0].Some? && col[p1].Some?
    requires forall q :: p0 < q < p1 && ds[q].sentByClient == b ==> col[q].None?
    ensures col[j].None? || ds[j].sentByClient != b
    ensures PrevKnown(ds, col, b, j) == Some(p0)
    ensures NextKnown(ds, col, b, j + 1) == Some(p1)
  {
    assert Known(ds, col, b, p0) && Known(ds, col, b, p1);
    assert PrevKnown(ds, col, b, p0 + 1) == Some(p0);
    PrevKnownSkips(ds, col, b, p0 + 1, j);
    assert NextKnown(ds, col, b, p1) == Some(p1);
    NextKnownSkips(ds, col, b, j + 1, p1);
  }

  /** The position of an interior datagram within its run lies in 1..k. */
  lemma InteriorPositionInRun(ds: seq<Datagram>, b: bool, p0: nat, j: nat, p1: nat)
    requires p0 < j < p1 <= |ds| && ds[j].sentByClient == b
    ensures 1 <= |SideIndices(ds, b, p0 + 1, j + 1)| <= |SideIndices(ds, b, p0 + 1, p1)|
  {
    var run := SideIndices(ds, b, p0 + 1, j + 1);
    SideIndicesComplete(ds, b, p0 + 1, j + 1, j);
    assert j in run;
    assert run != [];
    SideIndicesMonotone(ds, b, p0 + 1, j + 1, p1);
  }

  /** Widening the range only adds indices. */
  lemma {:induction false} SideIndicesMonotone(ds: seq<Datagram>, b: bool, lo: nat, mid: nat, hi: nat)
    requires lo <= mid <= hi <= |ds|
    ensures |SideIndices(ds, b, lo, mid)| <= |SideIndices(ds, b, lo, hi)|
    decreases hi - mid
  {
    if mid < hi {
      SideIndicesMonotone(ds, b, lo, mid, hi - 1);
    }
  }

  /** A direction with no RTT after step 1 has none after step 2. */
  lemma DirectionWithoutRtt(ds: seq<Datagram>, col: seq<Option<int>>, b: bool)
    requires |col| == |ds|
    requires forall q :: 0 <= q < |ds| && ds[q].sentByClient == b ==> col[q].None?
    ensures forall j :: 0 <= j < |ds| && ds[j].sentByClient == b ==> FillPass(ds, col)[j].None?
  {
    forall j | 0 <= j < |ds| && ds[j].sentByClient == b
      ensures FillPass(ds, col)[j].None?
    {
      FillPassAt(ds, col, j);
    }
  }

  /** A direction with at least one RTT after step 1 has an RTT everywhere
      after step 2. */
  lemma DirectionWithRtt(ds: seq<Datagram>, col: seq<Option<int>>, b: bool, k: nat)
    requires |col| == |ds| && k < |ds| && ds[k].sentByClient == b && col[k].Some?
    ensures forall j :: 0 <= j < |ds| && ds[j].sentByClient == b ==> FillPass(ds, col)[j].Some?
  {
    forall j | 0 <= j < |ds| && ds[j].sentByClient == b
      ensures FillPass(ds, col)[j].Some?
    {
      FillPassAt(ds, col, j);
      ExpectedWhenSideKnown(ds, col, b, k, j);
    }
  }

  /** One known RTT on a side gives every datagram of that side a
      reference RTT. */
  lemma ExpectedWhenSideKnown(ds: seq<Datagram>, col: seq<Option<int>>, b: bool, k: nat, j: nat)
    requires |col| == |ds| && k < |ds| && ds[k].sentByClient == b && col[k].Some?
    requires j < |ds| && ds[j].sentByClient == b
    ensures ExpectedRtt(ds, col, j).Some?
  {
    assert Known(ds, col, b, k);
    if col[j].None? && k < j {
      assert PrevKnown(ds, col, b, j).Some?;
    } else if col[j].None? {
      assert NextKnown(ds, col, b, j + 1).Some?;
    }
  }

  /** PrevKnown of a side only reads that side's RTTs. */
  lemma {:induction false} PrevKnownPerSide(ds: seq<Datagram>, col: seq<Option<int>>, col': seq<Option<int>>, b: bool, n: nat)
    requires |col| == |ds| && |col'| == |ds| && n <= |ds|
    requires forall q :: 0 <= q < |ds| && ds[q].sentByClient == b ==> col[q] == col'[q]
    ensures PrevKnown(ds, col, b, n) == PrevKnown(ds, col', b, n)
  {
    if n > 0 {
      PrevKnownPerSide(ds, col, col', b, n - 1);
    }
  }

  /** NextKnown of a side only reads that side's RTTs. */
  lemma {:induction false} NextKnownPerSide(ds: seq<Datagram>, col: seq<Option<int>>, col': seq<Option<int>>, b: bool, n: nat)
    requires |col| == |ds| && |col'| == |ds| && n <= |ds|
    requires forall q :: 0 <= q < |ds| && ds[q].sentByClient == b ==> col[q] == col'[q]
    ensures NextKnown(ds, col, b, n) == NextKnown(ds, col', b, n)
    decreases |ds| - n
  {
    if n < |ds| {
      NextKnownPerSide(ds, col, col', b, n + 1);
    }
  }

  /** The expected RTT of a datagram only reads its own direction's RTTs. */
  lemma ExpectedRttPerSide(ds: seq<Datagram>, col: seq<Option<int>>, col': seq<Option<int>>, j: nat)
    requires |col| == |ds| && |col'| == |ds| && j < |ds|
    requires forall q :: 0 <= q < |ds| && ds[q].sentByClient == ds[j].sentByClient ==> col[q] == col'[q]
    ensures ExpectedRtt(ds, col, j) == ExpectedRtt(ds, col', j)
  {
    var b := ds[j].sentByClient;
    PrevKnownPerSide(ds, col, col', b, j);
    NextKnownPerSide(ds, col, col', b, j + 1);
  }

  /** Step 2 never mixes directions: what a direction ends with depends
      only on that direction's RTTs. */
  lemma DirectionsIndependent(ds: seq<Datagram>, col: seq<Option<int>>, col': seq<Option<int>>, b: bool)
    requires |col| == |ds| && |col'| == |ds|
    requires forall q :: 0 <= q < |ds| && ds[q].sentByClient == b ==> col[q] == col'[q]
    ensures forall j :: 0 <= j < |ds| && ds[j].sentByClient == b ==> FillPass(ds, col)[j] == FillPass(ds, col')[j]
  {
    forall j | 0 <= j < |ds| && ds[j].sentByClient == b
      ensures FillPass(ds, col)[j] == FillPass(ds, col')[j]
    {
      FillPassAt(ds, col, j);
      FillPassAt(ds, col', j);
      ExpectedRttPerSide(ds, col, col', j);
    }
  }
}
