/**
 The connection-type classifier (`ConnectionType` in
 pasta/plugins/connection_type.py). A connection is labelled from two
 observations: how asymmetric its payload volume is, and how quickly each
 side answers the other, measured in round-trip times of the datagram being
 answered. Datagrams without payload play no part in either.
 */
module ConnectionType {
  import opened Options
  import opened Datagrams
  import ConnectionSummary

  datatype Label = ScpUp | ScpDown | Shell | ReverseShell | Tunnel

  /** The class constants. The names pair "up" and "down" the other way
      round from the labels they guard: `scp_up_min_asymetry` is the bound
      for `scp (down)`. */
  const ShellMaxTimeToReply: real := 0.7
  const ShellMinReplies: real := 0.6
  const RshellMaxTimeToReply: real := 0.7
  const RshellMinReplies: real := 0.6
  const ScpUpMinAsymmetry: real := 0.95
  const ScpDownMaxAsymmetry: real := 0.05

  // ---------------------------------------------------------------------
  // Asymmetry
  // ---------------------------------------------------------------------

  /** Payload bytes sent by one side. */
  function PayloadSent(ds: seq<Datagram>, byClient: bool): nat
  {
    if |ds| == 0 then 0
    else PayloadSent(DropLast(ds), byClient) + (if Last(ds).sentByClient == byClient then Last(ds).payloadLen else 0)
  }

  /** `ratio_server_sent`: the server's share of the payload bytes, 0 when
      the server sent none. */
  function AsymmetryRatio(ds: seq<Datagram>): (r: real)
    ensures 0.0 <= r <= 1.0
    ensures PayloadSent(ds, false) == 0 ==> r == 0.0
    ensures PayloadSent(ds, false) > 0 && PayloadSent(ds, true) == 0 ==> r == 1.0
  {
    var client := PayloadSent(ds, true) as real;
    var server := PayloadSent(ds, false) as real;
    if server == 0.0 then 0.0 else ShareBounds(server, client); server / (server + client)
  }

  lemma ShareBounds(server: real, client: real)
    requires server > 0.0 && client >= 0.0
    ensures 0.0 <= server / (server + client) <= 1.0
    ensures client == 0.0 ==> server / (server + client) == 1.0
  {
  }

  /** The ratio exceeds one half exactly when the server sent more payload
      than the client. */
  lemma RatioAboveHalf(ds: seq<Datagram>)
    ensures AsymmetryRatio(ds) > 0.5 <==> PayloadSent(ds, false) > PayloadSent(ds, true)
  {
    var client := PayloadSent(ds, true) as real;
    var server := PayloadSent(ds, false) as real;
    if server > 0.0 {
      ShareVsBound(server, server + client, 0.5);
    }
  }

  /** Comparing a quotient with a bound is comparing the dividend with the
      scaled bound. */
  lemma ShareVsBound(x: real, t: real, k: real)
    requires t > 0.0
    ensures x / t > k <==> x > k * t
    ensures x / t >= k <==> x >= k * t
  {
    var q := x / t;
    assert q * t == x;
    if q > k {
      assert (q - k) * t > 0.0;
    } else {
      assert (k - q) * t >= 0.0;
    }
    if q >= k {
      assert (q - k) * t >= 0.0;
    } else {
      assert (k - q) * t > 0.0;
    }
  }

  // ---------------------------------------------------------------------
  // Time to reply, as the source computes it
  // ---------------------------------------------------------------------

  /** `time_to_reply`: `byServer` is the list under key True (the server
      answering the client), `byClient` the list under key False. */
  datatype Replies = Replies(byServer: seq<real>, byClient: seq<real>)

  /** The loop state: `last_datagram[True]` and `last_datagram[False]`, and
      the lists built so far. */
  datatype ReplyScan = ReplyScan(lastByClient: Option<Datagram>, lastByServer: Option<Datagram>, replies: Replies)

  /** Time from `trigger` to `reply`, in round-trip times of `trigger`. */
  function Normalised(trigger: Datagram, reply: Datagram): real
    requires trigger.rtt.Some? && trigger.rtt.value != 0
  {
    (reply.time - trigger.time) as real / trigger.rtt.value as real
  }

  /** Appends a sample to the list of the given key. */
  function AddReply(rs: Replies, way: bool, x: real): Replies
  {
    if way then rs.(byServer := rs.byServer + [x]) else rs.(byClient := rs.byClient + [x])
  }

  /** One iteration of the loop of `compute_time_to_reply`. The trigger's
      RTT is read without a check, so a trigger whose RTT was never set
      aborts the analysis. */
  function ReplyStep(st: ReplyScan, d: Datagram): Checked<ReplyScan>
  {
    if !d.HasPayload() then Ok(st)
    else
      var way := !d.sentByClient;
      var trigger := if way then st.lastByClient else st.lastByServer;
      if trigger.Some? && trigger.value.rtt.None? then RttUnset
      else
        var replies :=
          if trigger.Some? && trigger.value.rtt.value != 0
          then AddReply(st.replies, way, Normalised(trigger.value, d))
          else st.replies;
        if way then Ok(ReplyScan(None, Some(d), replies))
        else Ok(ReplyScan(Some(d), None, replies))
  }

  function RunReplyScan(ds: seq<Datagram>): Checked<ReplyScan>
  {
    if |ds| == 0 then Ok(ReplyScan(None, None, Replies([], [])))
    else match RunReplyScan(DropLast(ds))
      case RttUnset => RttUnset
      case Ok(st) => ReplyStep(st, Last(ds))
  }

  /** `compute_time_to_reply`. */
  function TimeToReply(ds: seq<Datagram>): Checked<Replies>
  {
    match RunReplyScan(ds)
    case RttUnset => RttUnset
    case Ok(st) => Ok(st.replies)
  }

  // ---------------------------------------------------------------------
  // Time to reply, stated over the payload datagrams
  // ---------------------------------------------------------------------

  /** Payload datagram j answers payload datagram j-1: they come from
      different sides. */
  predicate Answers(ps: seq<Datagram>, j: int)
  {
    1 <= j < |ps| && ps[j - 1].sentByClient != ps[j].sentByClient
  }

  /** Some answered payload datagram has no RTT. */
  predicate MissingTriggerRtt(ps: seq<Datagram>)
  {
    exists j :: 1 <= j < |ps| && Answers(ps, j) && ps[j - 1].rtt.None?
  }

  /** The samples of one key over the payload datagrams `ps`: one for every
      datagram of the answering side that follows a datagram of the other
      side with a non-zero RTT. */
  function Samples(ps: seq<Datagram>, way: bool): (xs: seq<real>)
    requires !MissingTriggerRtt(ps)
  {
    if |ps| == 0 then []
    else
      var j := |ps| - 1;
      assert !MissingTriggerRtt(DropLast(ps)) by {
        forall k | Answers(DropLast(ps), k) ensures DropLast(ps)[k - 1].rtt.Some? {
          assert Answers(ps, k);
        }
      }
      Samples(DropLast(ps), way)
        + (if Answers(ps, j) && !ps[j].sentByClient == way && ps[j - 1].rtt.value != 0
           then [Normalised(ps[j - 1], ps[j])] else [])
  }

  /** The sample lists as the payload datagrams determine them. */
  function ExpectedReplies(ds: seq<Datagram>): Checked<Replies>
  {
    var ps := PayloadOnly(ds);
    if MissingTriggerRtt(ps) then RttUnset else Ok(Replies(Samples(ps, true), Samples(ps, false)))
  }

  /** What the loop holds after the payload datagrams ps: the last of them,
      under its own side's key, and the reference sample lists. */
  predicate AgreesWith(ps: seq<Datagram>, st: ReplyScan)
  {
    && !MissingTriggerRtt(ps)
    && st.replies == Replies(Samples(ps, true), Samples(ps, false))
    && st.lastByClient == (if |ps| > 0 && Last(ps).sentByClient then Some(Last(ps)) else None)
    && st.lastByServer == (if |ps| > 0 && !Last(ps).sentByClient then Some(Last(ps)) else None)
  }

  /** What the loop holds after ds. */
  predicate ScanAgrees(ds: seq<Datagram>, st: ReplyScan)
  {
    AgreesWith(PayloadOnly(ds), st)
  }

  /** One iteration on a payload datagram d: the loop aborts exactly when d
      answers a datagram without RTT, and otherwise keeps agreeing with the
      reference. */
  lemma ReplyStepAgrees(ps0: seq<Datagram>, st: ReplyScan, d: Datagram)
    requires d.HasPayload() && AgreesWith(ps0, st)
    ensures ReplyStep(st, d).Ok? <==> !MissingTriggerRtt(ps0 + [d])
    ensures ReplyStep(st, d).Ok? ==> AgreesWith(ps0 + [d], ReplyStep(st, d).value)
  {
    var ps := ps0 + [d];
    assert DropLast(ps) == ps0 && Last(ps) == d;
    MissingTriggerStep(ps);
    assert Answers(ps, |ps| - 1) <==> |ps0| > 0 && Last(ps0).sentByClient != d.sentByClient;
  }

  lemma {:induction false} ReplyScanInv(ds: seq<Datagram>)
    ensures RunReplyScan(ds).Ok? <==> !MissingTriggerRtt(PayloadOnly(ds))
    ensures RunReplyScan(ds).Ok? ==> ScanAgrees(ds, RunReplyScan(ds).value)
  {
    if |ds| > 0 {
      var pre := DropLast(ds);
      var d := Last(ds);
      var ps0 := PayloadOnly(pre);
      ReplyScanInv(pre);
      assert RunReplyScan(ds) == (match RunReplyScan(pre)
                                  case RttUnset => RttUnset
                                  case Ok(st) => ReplyStep(st, d));
      if !d.HasPayload() {
        assert PayloadOnly(ds) == ps0;
      } else {
        assert PayloadOnly(ds) == ps0 + [d];
        if RunReplyScan(pre).Ok? {
          ReplyStepAgrees(ps0, RunReplyScan(pre).value, d);
        } else {
          MissingTriggerStep(ps0 + [d]);
          assert DropLast(ps0 + [d]) == ps0;
        }
      }
    }
  }

  /** A missing trigger RTT in ps is one in its prefix or one at its end. */
  lemma MissingTriggerStep(ps: seq<Datagram>)
    requires |ps| > 0
    ensures MissingTriggerRtt(ps) <==>
              MissingTriggerRtt(DropLast(ps)) || (Answers(ps, |ps| - 1) && ps[|ps| - 2].rtt.None?)
  {
    var pre := DropLast(ps);
    if MissingTriggerRtt(ps) {
      var j :| 1 <= j < |ps| && Answers(ps, j) && ps[j - 1].rtt.None?;
      if j < |ps| - 1 {
        assert pre[j - 1] == ps[j - 1] && pre[j] == ps[j];
        assert Answers(pre, j);
      }
    }
    if MissingTriggerRtt(pre) {
      var j :| 1 <= j < |pre| && Answers(pre, j) && pre[j - 1].rtt.None?;
      assert pre[j - 1] == ps[j - 1] && pre[j] == ps[j];
      assert Answers(ps, j);
    }
  }

  /** The loop computes the reference sample lists, and aborts exactly when
      some answered payload datagram has no RTT. */
  lemma TimeToReplyIsExpected(ds: seq<Datagram>)
    ensures TimeToReply(ds) == ExpectedReplies(ds)
  {
    ReplyScanInv(ds);
  }

  // ---------------------------------------------------------------------
  // The label
  // ---------------------------------------------------------------------

  /** Number of samples at most `bound`. */
  function CountAtMost(xs: seq<real>, bound: real): (c: nat)
    ensures c <= |xs|
  {
    if |xs| == 0 then 0 else CountAtMost(DropLast(xs), bound) + (if Last(xs) <= bound then 1 else 0)
  }

  /** A direction qualifies when it has samples and a large enough share of
      them is quick. */
  predicate Qualifies(xs: seq<real>, maxTimeToReply: real, minReplies: real)
  {
    |xs| > 0 && (CountAtMost(xs, maxTimeToReply) as real) / (|xs| as real) >= minReplies
  }

  /** `analyse`: the SCP checks on the asymmetry ratio first; then the
      server direction (shell), then the client direction (reverse shell);
      tunnel otherwise. */
  function Classify(ds: seq<Datagram>): Checked<Label>
  {
    var ratio := AsymmetryRatio(ds);
    if ratio > 0.5 && ratio >= ScpUpMinAsymmetry then Ok(ScpDown)
    else if ratio <= 0.5 && ratio <= ScpDownMaxAsymmetry then Ok(ScpUp)
    else match TimeToReply(ds)
      case RttUnset => RttUnset
      case Ok(rs) =>
        if Qualifies(rs.byServer, ShellMaxTimeToReply, ShellMinReplies) then Ok(Shell)
        else if Qualifies(rs.byClient, RshellMaxTimeToReply, RshellMinReplies) then Ok(ReverseShell)
        else Ok(Tunnel)
  }

  // ---------------------------------------------------------------------
  // Properties of the label
  // ---------------------------------------------------------------------

  /** `scp (down)` exactly when the server sent payload and at least 19
      times as much as the client (a 95% share). */
  lemma ScpDownIffVolumes(ds: seq<Datagram>)
    ensures Classify(ds) == Ok(ScpDown)
            <==> PayloadSent(ds, false) > 0 && PayloadSent(ds, false) >= 19 * PayloadSent(ds, true)
  {
    var client := PayloadSent(ds, true) as real;
    var server := PayloadSent(ds, false) as real;
    if server > 0.0 {
      ShareVsBound(server, server + client, 0.95);
      ShareVsBound(server, server + client, 0.5);
    }
  }

  /** `scp (up)` exactly when the client sent at least 19 times as much
      payload as the server (a server share of at most 5%); in particular
      whenever the server sent no payload. */
  lemma ScpUpIffVolumes(ds: seq<Datagram>)
    ensures Classify(ds) == Ok(ScpUp) <==> 19 * PayloadSent(ds, false) <= PayloadSent(ds, true)
  {
    var client := PayloadSent(ds, true) as real;
    var server := PayloadSent(ds, false) as real;
    if server > 0.0 {
      ShareVsBound(server, server + client, 0.05);
      ShareVsBound(server, server + client, 0.5);
      ShareVsBound(server, server + client, 0.95);
    }
  }

  /** A connection whose server sends no payload at all is `scp (up)`. */
  lemma ServerSilentIsScpUp(ds: seq<Datagram>)
    requires forall i :: 0 <= i < |ds| && !ds[i].sentByClient ==> !ds[i].HasPayload()
    ensures Classify(ds) == Ok(ScpUp)
  {
    NoPayloadSent(ds, false);
    ScpUpIffVolumes(ds);
  }

  /** A connection whose client sends no payload while the server sends some
      is `scp (down)`. */
  lemma ClientSilentIsScpDown(ds: seq<Datagram>, k: nat)
    requires forall i :: 0 <= i < |ds| && ds[i].sentByClient ==> !ds[i].HasPayload()
    requires k < |ds| && !ds[k].sentByClient && ds[k].HasPayload()
    ensures Classify(ds) == Ok(ScpDown)
  {
    NoPayloadSent(ds, true);
    SomePayloadSent(ds, k);
    ScpDownIffVolumes(ds);
  }

  lemma {:induction false} NoPayloadSent(ds: seq<Datagram>, byClient: bool)
    requires forall i :: 0 <= i < |ds| && ds[i].sentByClient == byClient ==> !ds[i].HasPayload()
    ensures PayloadSent(ds, byClient) == 0
  {
    if |ds| > 0 {
      NoPayloadSent(DropLast(ds), byClient);
    }
  }

  lemma {:induction false} SomePayloadSent(ds: seq<Datagram>, k: nat)
    requires k < |ds| && ds[k].HasPayload()
    ensures PayloadSent(ds, ds[k].sentByClient) > 0
  {
    if k < |ds| - 1 {
      SomePayloadSent(DropLast(ds), k);
    }
  }

  /** Outside the SCP ranges, the server direction is looked at first:
      when it qualifies the label is `shell`, whatever the client
      direction would give. */
  lemma ShellWinsTies(ds: seq<Datagram>, rs: Replies)
    requires 19 * PayloadSent(ds, false) > PayloadSent(ds, true)
    requires PayloadSent(ds, false) == 0 || PayloadSent(ds, false) < 19 * PayloadSent(ds, true)
    requires TimeToReply(ds) == Ok(rs) && Qualifies(rs.byServer, ShellMaxTimeToReply, ShellMinReplies)
    ensures Classify(ds) == Ok(Shell)
  {
    ScpUpIffVolumes(ds);
    ScpDownIffVolumes(ds);
  }

  /** The payload volumes fall in neither SCP range: the server sent more
      than a 5% share, and not a 95% share (or sent nothing). */
  predicate OutsideScpRanges(ds: seq<Datagram>)
  {
    && 19 * PayloadSent(ds, false) > PayloadSent(ds, true)
    && (PayloadSent(ds, false) == 0 || PayloadSent(ds, false) < 19 * PayloadSent(ds, true))
  }

  /** `shell` exactly when the volumes are outside the SCP ranges and the
      server direction qualifies. */
  lemma ShellIff(ds: seq<Datagram>)
    ensures Classify(ds) == Ok(Shell) <==>
              && OutsideScpRanges(ds)
              && TimeToReply(ds).Ok?
              && Qualifies(TimeToReply(ds).value.byServer, ShellMaxTimeToReply, ShellMinReplies)
  {
    ScpUpIffVolumes(ds);
    ScpDownIffVolumes(ds);
  }

  /** `reverse shell` exactly when the volumes are outside the SCP ranges,
      the server direction does not qualify and the client direction does. */
  lemma ReverseShellIff(ds: seq<Datagram>)
    ensures Classify(ds) == Ok(ReverseShell) <==>
              && OutsideScpRanges(ds)
              && TimeToReply(ds).Ok?
              && !Qualifies(TimeToReply(ds).value.byServer, ShellMaxTimeToReply, ShellMinReplies)
              && Qualifies(TimeToReply(ds).value.byClient, RshellMaxTimeToReply, RshellMinReplies)
  {
    ScpUpIffVolumes(ds);
    ScpDownIffVolumes(ds);
  }

  /** The analysis aborts exactly when the volumes are outside the SCP
      ranges, so that the times to reply are computed, and that computation
      meets an unset RTT. */
  lemma AbortIff(ds: seq<Datagram>)
    ensures Classify(ds) == RttUnset <==> OutsideScpRanges(ds) && TimeToReply(ds) == RttUnset
  {
    ScpUpIffVolumes(ds);
    ScpDownIffVolumes(ds);
  }

  /** `tunnel` is the fallback: the label outside the SCP ranges when
      neither direction qualifies, and only then. */
  lemma TunnelIsFallback(ds: seq<Datagram>)
    ensures Classify(ds) == Ok(Tunnel) <==>
              && OutsideScpRanges(ds)
              && TimeToReply(ds).Ok?
              && !Qualifies(TimeToReply(ds).value.byServer, ShellMaxTimeToReply, ShellMinReplies)
              && !Qualifies(TimeToReply(ds).value.byClient, RshellMaxTimeToReply, RshellMinReplies)
  {
    ScpUpIffVolumes(ds);
    ScpDownIffVolumes(ds);
  }

  /** When every payload datagram has an RTT, the analysis never aborts and
      yields one of the five labels. */
  lemma ClassifyTotal(ds: seq<Datagram>)
    requires forall i :: 0 <= i < |ds| && ds[i].HasPayload() ==> ds[i].rtt.Some?
    ensures Classify(ds).Ok?
  {
    TimeToReplyIsExpected(ds);
  }

  /** Payload counts do not see zero-payload datagrams. */
  lemma {:induction false} PayloadSentOfPayloadOnly(ds: seq<Datagram>, byClient: bool)
    ensures PayloadSent(PayloadOnly(ds), byClient) == PayloadSent(ds, byClient)
  {
    if |ds| > 0 {
      var pre := DropLast(ds);
      var d := Last(ds);
      PayloadSentOfPayloadOnly(pre, byClient);
      var tail := if d.HasPayload() then [d] else [];
      assert PayloadOnly(ds) == PayloadOnly(pre) + tail;
      PayloadSentAppend(PayloadOnly(pre), tail, byClient);
      assert PayloadSent(tail, byClient) == (if d.sentByClient == byClient then d.payloadLen else 0) by {
        if d.HasPayload() {
          assert DropLast(tail) == [];
        }
      }
    }
  }

  lemma {:induction false} PayloadSentAppend(a: seq<Datagram>, b: seq<Datagram>, byClient: bool)
    ensures PayloadSent(a + b, byClient) == PayloadSent(a, byClient) + PayloadSent(b, byClient)
    decreases |b|
  {
    if |b| == 0 {
      assert a + b == a;
    } else {
      assert DropLast(a + b) == a + DropLast(b);
      assert Last(a + b) == Last(b);
      PayloadSentAppend(a, DropLast(b), byClient);
    }
  }

  /** Inserting or removing zero-payload datagrams changes neither the
      asymmetry ratio nor the sample lists, hence not the label. */
  lemma ZeroPayloadIrrelevant(ds: seq<Datagram>, ds': seq<Datagram>)
    requires PayloadOnly(ds) == PayloadOnly(ds')
    ensures AsymmetryRatio(ds) == AsymmetryRatio(ds')
    ensures TimeToReply(ds) == TimeToReply(ds')
    ensures Classify(ds) == Classify(ds')
  {
    SameRatio(ds, ds');
    TimeToReplyIsExpected(ds);
    TimeToReplyIsExpected(ds');
    assert TimeToReply(ds) == TimeToReply(ds');
  }

  /** The asymmetry ratio only reads payload datagrams. */
  lemma SameRatio(ds: seq<Datagram>, ds': seq<Datagram>)
    requires PayloadOnly(ds) == PayloadOnly(ds')
    ensures AsymmetryRatio(ds) == AsymmetryRatio(ds')
  {
    PayloadSentOfPayloadOnly(ds, true);
    PayloadSentOfPayloadOnly(ds, false);
    PayloadSentOfPayloadOnly(ds', true);
    PayloadSentOfPayloadOnly(ds', false);
  }

  /** Each sample of a key is an answer by that key's side, and follows a
      distinct datagram of the other side: the server's list is no longer
      than the server's payload datagrams, nor than the client's payload
      datagrams that precede the last one. */
  lemma {:induction false} SampleCounts(ps: seq<Datagram>, way: bool)
    requires !MissingTriggerRtt(ps) && |ps| > 0
    ensures |Samples(ps, way)| <= ConnectionSummary.SentNb(ps, !way)
    ensures |Samples(ps, way)| <= ConnectionSummary.SentNb(DropLast(ps), way)
  {
    var pre := DropLast(ps);
    var j := |ps| - 1;
    if |pre| > 0 {
      assert !MissingTriggerRtt(pre) by {
        forall k | 1 <= k < |pre| && Answers(pre, k) ensures pre[k - 1].rtt.Some? {
          assert pre[k - 1] == ps[k - 1] && pre[k] == ps[k];
          assert Answers(ps, k);
        }
      }
      SampleCounts(pre, way);
      assert Last(pre) == ps[j - 1];
    }
  }

  /** The sample list of the server (key True) has at most one entry per
      server payload datagram, and the client's likewise. */
  lemma SamplesBounded(ds: seq<Datagram>, rs: Replies)
    requires TimeToReply(ds) == Ok(rs)
    ensures |rs.byServer| <= ConnectionSummary.SentNb(PayloadOnly(ds), false)
    ensures |rs.byClient| <= ConnectionSummary.SentNb(PayloadOnly(ds), true)
  {
    TimeToReplyIsExpected(ds);
    if |PayloadOnly(ds)| > 0 {
      SampleCounts(PayloadOnly(ds), true);
      SampleCounts(PayloadOnly(ds), false);
    }
  }
}
