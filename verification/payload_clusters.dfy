/**
 The payload-size clustering of the server-side stepping-stone detector
 (`closest_group`, `update_average_possible` and `is_PS_modally_distributed`
 in pasta/plugins/stepping_stone_detection_serverside.py). Payload sizes are
 grouped around keys with a tolerance of `IN_GROUP`; a connection is
 "modally distributed" when almost all of its payloads fall in groups that
 each hold more than a tenth of them.

 The source keeps the groups in a dictionary from key to members. Here they
 are a sequence in insertion order; the properties proved below do not
 depend on that order.
 */
module PayloadClusters {
  import opened Options
  import opened Datagrams

  const InGroup: int := 3
  const MinSize: real := 0.1
  const NModDist: real := 0.98

  function Abs(x: int): nat
  {
    if x < 0 then -x else x
  }

  /** One dictionary entry: a key and the payload sizes grouped under it. */
  datatype Group = Group(key: int, members: seq<int>)

  function Sum(xs: seq<int>): int
  {
    if |xs| == 0 then 0 else Sum(DropLast(xs)) + Last(xs)
  }

  /** Python 2 `sum(members) / len(members)`: integer division, rounded
      down. */
  function FloorMean(xs: seq<int>): int
    requires |xs| > 0
  {
    Sum(xs) / |xs|
  }

  predicate HasKey(gs: seq<Group>, k: int)
  {
    exists i :: 0 <= i < |gs| && gs[i].key == k
  }

  /** `closest_group`: walks the keys in order and keeps a key within
      `IN_GROUP` of `p` when none is kept yet or when its distance to `p` is
      below the key kept so far. The comparison is against the kept key
      itself, not against its distance, so the result is a key within
      tolerance but not necessarily the nearest one. */
  function ClosestGroup(p: int, gs: seq<Group>): (c: Option<int>)
    ensures c.None? <==> forall i :: 0 <= i < |gs| ==> Abs(gs[i].key - p) > InGroup
    ensures c.Some? ==> HasKey(gs, c.value) && Abs(c.value - p) <= InGroup
  {
    if |gs| == 0 then None
    else
      var c := ClosestGroup(p, DropLast(gs));
      var k := Last(gs).key;
      if Abs(k - p) <= InGroup && (c.None? || Abs(k - p) < c.value) then Some(k) else c
  }

  /** The first position holding key `k`. */
  function IndexOf(gs: seq<Group>, k: int): (i: nat)
    requires HasKey(gs, k)
    ensures i < |gs| && gs[i].key == k
    ensures forall j :: 0 <= j < i ==> gs[j].key != k
  {
    if gs[0].key == k then 0
    else
      assert HasKey(gs[1..], k) by {
        var j :| 0 <= j < |gs| && gs[j].key == k;
        assert gs[1..][j - 1].key == k;
      }
      1 + IndexOf(gs[1..], k)
  }

  /** `update_average_possible`: the group at `i` may move to the floor
      mean of its members only when no key at all, its own included, lies
      within `IN_GROUP` of that mean. */
  function UpdateAveragePossible(gs: seq<Group>, i: nat): (b: bool)
    requires i < |gs| && |gs[i].members| > 0
    ensures b ==> Abs(gs[i].key - FloorMean(gs[i].members)) > InGroup
  {
    var avg := FloorMean(gs[i].members);
    forall j :: 0 <= j < |gs| ==> Abs(gs[j].key - avg) > InGroup
  }

  /** One iteration of the clustering loop on payload `p`. */
  function ClusterStep(gs: seq<Group>, p: int): seq<Group>
    requires forall i :: 0 <= i < |gs| ==> |gs[i].members| > 0
  {
    match ClosestGroup(p, gs)
    case None => gs + [Group(p, [p])]
    case Some(k) =>
      var i := IndexOf(gs, k);
      var grown := gs[i := gs[i].(members := gs[i].members + [p])];
      if UpdateAveragePossible(grown, i) then
        grown[..i] + grown[i + 1..] + [Group(FloorMean(grown[i].members), grown[i].members)]
      else grown
  }

  /** The groups after the loop of `is_PS_modally_distributed` has seen
      `ps`. */
  function Cluster(ps: seq<int>): (gs: seq<Group>)
    ensures forall i :: 0 <= i < |gs| ==> |gs[i].members| > 0
  {
    if |ps| == 0 then []
    else ClusterStepKeepsNonEmpty(Cluster(DropLast(ps)), Last(ps)); ClusterStep(Cluster(DropLast(ps)), Last(ps))
  }

  lemma ClusterStepKeepsNonEmpty(gs: seq<Group>, p: int)
    requires forall i :: 0 <= i < |gs| ==> |gs[i].members| > 0
    ensures var gs' := ClusterStep(gs, p); forall i :: 0 <= i < |gs'| ==> |gs'[i].members| > 0
  {
  }

  /** All members of all groups, group after group. */
  function Flatten(gs: seq<Group>): seq<int>
  {
    if |gs| == 0 then [] else Flatten(DropLast(gs)) + Last(gs).members
  }

  /** The members counted by the verdict: those of groups holding more than
      `MIN_SIZE` of all payloads. */
  function SignificantMass(gs: seq<Group>, n: nat): nat
  {
    if |gs| == 0 then 0
    else SignificantMass(DropLast(gs), n) + (if |Last(gs).members| as real > n as real * MinSize then |Last(gs).members| else 0)
  }

  /** `is_PS_modally_distributed` on the payload sizes `ps`. The source
      divides by their number when it logs the share, so it is never called
      on an empty list. */
  function IsModallyDistributed(ps: seq<int>): (modal: bool)
    requires |ps| > 0
    ensures modal ==> SignificantMass(Cluster(ps), |ps|) > 0
  {
    SignificantMass(Cluster(ps), |ps|) as real > NModDist * |ps| as real
  }

  // ---------------------------------------------------------------------
  // closest_group
  // ---------------------------------------------------------------------

  /** The key returned need not be the nearest one: with keys 12 and 16
      (in that order) and payload 13, the walk keeps 12, then replaces it by
      16 because the distance 3 is below the kept key 12. */
  lemma ClosestNotNearest()
    ensures var gs := [Group(12, [12]), Group(16, [16])];
            ClosestGroup(13, gs) == Some(16) && Abs(12 - 13) < Abs(16 - 13)
  {
    var gs := [Group(12, [12]), Group(16, [16])];
    assert DropLast(gs) == [Group(12, [12])];
    assert DropLast(DropLast(gs)) == [];
  }

  // ---------------------------------------------------------------------
  // Clustering invariants
  // ---------------------------------------------------------------------

  /** Groups are non-empty, every member lies within `IN_GROUP` of its key,
      and keys lie more than `IN_GROUP` apart. */
  predicate WellClustered(gs: seq<Group>)
  {
    && (forall i :: 0 <= i < |gs| ==> |gs[i].members| > 0)
    && (forall i, m :: 0 <= i < |gs| && 0 <= m < |gs[i].members| ==> Abs(gs[i].members[m] - gs[i].key) <= InGroup)
    && (forall i, j :: 0 <= i < j < |gs| ==> Abs(gs[i].key - gs[j].key) > InGroup)
  }

  lemma {:induction false} SumBounds(xs: seq<int>, k: int)
    requires forall m :: 0 <= m < |xs| ==> Abs(xs[m] - k) <= InGroup
    ensures |xs| * (k - InGroup) <= Sum(xs) <= |xs| * (k + InGroup)
  {
    if |xs| > 0 {
      SumBounds(DropLast(xs), k);
      assert |xs| * (k - InGroup) == |DropLast(xs)| * (k - InGroup) + (k - InGroup);
      assert |xs| * (k + InGroup) == |DropLast(xs)| * (k + InGroup) + (k + InGroup);
    }
  }

  lemma {:induction false} MulMono(n: nat, a: int, b: int)
    requires a <= b
    ensures n * a <= n * b
  {
    if n > 0 {
      MulMono(n - 1, a, b);
      assert n * a == (n - 1) * a + a;
      assert n * b == (n - 1) * b + b;
    }
  }

  /** Rounding down a quotient keeps it between bounds of the dividend. */
  lemma FloorDivBetween(s: int, n: int, lo: int, hi: int)
    requires n > 0 && n * lo <= s <= n * hi
    ensures lo <= s / n <= hi
  {
    var q := s / n;
    assert n * q <= s < n * (q + 1);
    MulOrder(n, lo, q + 1);
    MulOrder(n, q, hi + 1);
    assert n * (hi + 1) == n * hi + n;
  }

  /** Either a < b, or multiplying by n keeps them in reverse order. */
  lemma MulOrder(n: nat, a: int, b: int)
    ensures a < b || n * b <= n * a
  {
    if b <= a {
      MulMono(n, b, a);
    }
  }

  /** The floor mean of members within tolerance of a key is itself within
      tolerance of that key. */
  lemma MeanNearKey(xs: seq<int>, k: int)
    requires |xs| > 0 && forall m :: 0 <= m < |xs| ==> Abs(xs[m] - k) <= InGroup
    ensures Abs(FloorMean(xs) - k) <= InGroup
  {
    SumBounds(xs, k);
    FloorDivBetween(Sum(xs), |xs|, k - InGroup, k + InGroup);
  }

  /** In well-clustered groups the re-keying branch never runs: once `p`
      joins its closest group, that group's own key is still within
      tolerance of the new floor mean. */
  lemma RekeyNeverFires(gs: seq<Group>, p: int, k: int)
    requires WellClustered(gs) && ClosestGroup(p, gs) == Some(k)
    ensures var i := IndexOf(gs, k);
            !UpdateAveragePossible(gs[i := gs[i].(members := gs[i].members + [p])], i)
  {
    var i := IndexOf(gs, k);
    var ms := gs[i].members + [p];
    forall m | 0 <= m < |ms|
      ensures Abs(ms[m] - k) <= InGroup
    {
      if m < |gs[i].members| {
        assert ms[m] == gs[i].members[m];
      }
    }
    MeanNearKey(ms, k);
  }

  lemma {:induction false} FlattenAppend(gs: seq<Group>, g: Group)
    ensures Flatten(gs + [g]) == Flatten(gs) + g.members
  {
    assert DropLast(gs + [g]) == gs;
  }

  /** Adding `p` to the members of group `i` adds `p` to the flattened
      members and nothing else. */
  lemma {:induction false} FlattenGrow(gs: seq<Group>, i: nat, p: int)
    requires i < |gs|
    ensures multiset(Flatten(gs[i := gs[i].(members := gs[i].members + [p])])) == multiset(Flatten(gs)) + multiset{p}
  {
    var gs' := gs[i := gs[i].(members := gs[i].members + [p])];
    if i == |gs| - 1 {
      assert DropLast(gs') == DropLast(gs);
    } else {
      FlattenGrow(DropLast(gs), i, p);
      assert DropLast(gs') == DropLast(gs)[i := gs[i].(members := gs[i].members + [p])];
    }
  }

  /** A payload far from every key opens a new group keyed by itself. */
  lemma NewGroupInv(gs: seq<Group>, p: int)
    requires WellClustered(gs) && forall i :: 0 <= i < |gs| ==> Abs(gs[i].key - p) > InGroup
    ensures WellClustered(gs + [Group(p, [p])])
    ensures multiset(Flatten(gs + [Group(p, [p])])) == multiset(Flatten(gs)) + multiset{p}
  {
    FlattenAppend(gs, Group(p, [p]));
    NewGroupWellClustered(gs, p);
  }

  lemma NewGroupWellClustered(gs: seq<Group>, p: int)
    requires WellClustered(gs) && forall i :: 0 <= i < |gs| ==> Abs(gs[i].key - p) > InGroup
    ensures WellClustered(gs + [Group(p, [p])])
  {
    var gs' := gs + [Group(p, [p])];
    forall i, m | 0 <= i < |gs'| && 0 <= m < |gs'[i].members|
      ensures Abs(gs'[i].members[m] - gs'[i].key) <= InGroup
    {
      if i < |gs| {
        assert gs'[i] == gs[i];
      }
    }
    forall i, j | 0 <= i < j < |gs'|
      ensures Abs(gs'[i].key - gs'[j].key) > InGroup
    {
      assert gs'[i] == gs[i];
      if j < |gs| {
        assert gs'[j] == gs[j];
      }
    }
  }

  /** A payload joining group `i` keeps the groups well clustered. */
  lemma JoinGroupInv(gs: seq<Group>, p: int, i: nat)
    requires WellClustered(gs) && i < |gs| && Abs(gs[i].key - p) <= InGroup
    ensures WellClustered(gs[i := gs[i].(members := gs[i].members + [p])])
    ensures multiset(Flatten(gs[i := gs[i].(members := gs[i].members + [p])])) == multiset(Flatten(gs)) + multiset{p}
  {
    FlattenGrow(gs, i, p);
    JoinGroupWellClustered(gs, p, i);
  }

  lemma JoinGroupWellClustered(gs: seq<Group>, p: int, i: nat)
    requires WellClustered(gs) && i < |gs| && Abs(gs[i].key - p) <= InGroup
    ensures WellClustered(gs[i := gs[i].(members := gs[i].members + [p])])
  {
    var grown := gs[i := gs[i].(members := gs[i].members + [p])];
    assert forall j :: 0 <= j < |grown| ==> grown[j].key == gs[j].key;
    forall j, m | 0 <= j < |grown| && 0 <= m < |grown[j].members|
      ensures Abs(grown[j].members[m] - grown[j].key) <= InGroup
    {
      if j != i {
        assert grown[j] == gs[j];
      } else if m < |gs[i].members| {
        assert grown[j].members[m] == gs[i].members[m];
      }
    }
  }

  /** One step keeps the groups well clustered and adds exactly `p` to
      the members. */
  lemma ClusterStepInv(gs: seq<Group>, p: int)
    requires WellClustered(gs)
    ensures WellClustered(ClusterStep(gs, p))
    ensures multiset(Flatten(ClusterStep(gs, p))) == multiset(Flatten(gs)) + multiset{p}
  {
    match ClosestGroup(p, gs)
    case None =>
      NewGroupInv(gs, p);
    case Some(k) =>
      var i := IndexOf(gs, k);
      RekeyNeverFires(gs, p, k);
      JoinGroupInv(gs, p, i);
  }

  /** The clustering invariants: the groups partition the payloads (as a
      multiset), members sit within tolerance of their key, keys are more
      than the tolerance apart. */
  lemma {:induction false} ClusterInvariants(ps: seq<int>)
    ensures WellClustered(Cluster(ps))
    ensures multiset(Flatten(Cluster(ps))) == multiset(ps)
  {
    if |ps| > 0 {
      var pre := DropLast(ps);
      var gs := Cluster(pre);
      ClusterInvariants(pre);
      assert Cluster(ps) == ClusterStep(gs, Last(ps));
      ClusterStepInv(gs, Last(ps));
      LastSplit(ps);
    }
  }

  lemma LastSplit(ps: seq<int>)
    requires |ps| > 0
    ensures multiset(ps) == multiset(DropLast(ps)) + multiset{Last(ps)}
  {
    assert ps == DropLast(ps) + [Last(ps)];
  }

  /** Group sizes add up to the number of payloads. */
  lemma GroupSizesSum(ps: seq<int>)
    ensures |Flatten(Cluster(ps))| == |ps|
  {
    ClusterInvariants(ps);
    assert |multiset(Flatten(Cluster(ps)))| == |multiset(ps)|;
  }

  /** The counted mass never exceeds the members present. */
  lemma {:induction false} SignificantMassBound(gs: seq<Group>, n: nat)
    ensures SignificantMass(gs, n) <= |Flatten(gs)|
  {
    if |gs| > 0 {
      SignificantMassBound(DropLast(gs), n);
    }
  }

  /** The mass counted by the verdict is at most the number of payloads. */
  lemma MassAtMostPayloads(ps: seq<int>)
    ensures SignificantMass(Cluster(ps), |ps|) <= |ps|
  {
    SignificantMassBound(Cluster(ps), |ps|);
    GroupSizesSum(ps);
  }

  /** Equal payload sizes form a single group keyed by that size. */
  lemma {:induction false} EqualPayloadsOneGroup(ps: seq<int>, v: int)
    requires |ps| > 0 && forall i :: 0 <= i < |ps| ==> ps[i] == v
    ensures Cluster(ps) == [Group(v, ps)]
  {
    if |ps| == 1 {
      assert DropLast(ps) == [];
      assert ps == [v];
    } else {
      var pre := DropLast(ps);
      EqualPayloadsOneGroup(pre, v);
      var gs := [Group(v, pre)];
      assert DropLast(gs) == [];
      assert ClosestGroup(v, gs) == Some(v);
      ClusterInvariants(pre);
      RekeyNeverFires(gs, v, v);
      assert pre + [v] == ps;
    }
  }

  /** When every payload has the same size, the distribution is modal. */
  lemma EqualPayloadsModal(ps: seq<int>, v: int)
    requires |ps| > 0 && forall i :: 0 <= i < |ps| ==> ps[i] == v
    ensures IsModallyDistributed(ps)
  {
    EqualPayloadsOneGroup(ps, v);
    var gs := [Group(v, ps)];
    assert DropLast(gs) == [];
    assert SignificantMass(gs, |ps|) == |ps|;
  }
}
