# PASTA core, modelled in Dafny

PASTA analyses captured SSH connections. This project models its core:

- The per-connection summary, which counts the datagrams and bytes each side sent.
- `Connection.compute_RTT`, which estimates a round-trip time (RTT) for every datagram of a connection. Step 1 is a backward scan. It pairs each datagram with a later datagram from the other side that carries an acknowledgement. Step 2 is a forward scan. It fills the remaining RTTs of each direction by copying or by linear interpolation.
- The connection-type plugin, which labels a connection as `scp (up)`, `scp (down)`, `shell`, `reverse shell` or `tunnel`. It decides from the payload asymmetry and the normalised times to reply.
- The server-side stepping-stone detector. It compares the RTTs of the client's payload datagrams with their inter-arrival times (IATs). When needed, it then clusters the payload sizes.

A datagram is a `Datagrams.Datagram` record with these fields:

- the direction;
- the capture time, as integer microseconds;
- the sequence number;
- the total and payload lengths;
- the acknowledgement number;
- an optional RTT.

The source reads an unset RTT without a check in two places: the trigger of a reply and the detector's RTT list. It then fails with an attribute error. The model returns `Checked.RttUnset` for this case instead of forbidding it. Operations are pure functions over sequences, and each is paired with an independent reference definition or an invariant.

Modules follow the source files:

| module | file |
|---|---|
| `Datagrams` | the datagram record, shared by all files |
| `ConnectionSummary` | pasta/connection.py, the counters built by the constructor |
| `RttMatching` | pasta/connection.py, step 1 of `compute_RTT` |
| `RttFilling` | pasta/connection.py, step 2 of `compute_RTT` |
| `Rtt` | pasta/connection.py, both steps together |
| `ConnectionType` | pasta/plugins/connection_type.py |
| `PayloadClusters` | pasta/plugins/stepping_stone_detection_serverside.py, the payload-size clustering |
| `SteppingStone` | pasta/plugins/stepping_stone_detection_serverside.py, the RTT/IAT test, the verdict and `analyse` |

Behaviour of the code that the model keeps as written:

- The detector's `analyse` (pasta/plugins/stepping_stone_detection_serverside.py:58) examines a connection only when it has more than 20 datagrams. The count includes datagrams without payload and the server's datagrams. `compare_RTT_IAT` then needs at least 20 RTTs once the first is dropped, so more than 20 client payload datagrams (lines 115-121).
- `is_stepping_stone` (lines 103-105) returns False when `compare_RTT_IAT` returns None. The payload-size test runs only after a conclusive comparison.
- The docstring of `closest_group` (line 162) says it returns the closest group. Line 167 compares a candidate's distance with the previously kept key instead of that key's distance. `PayloadClusters.ClosestNotNearest` gives an input where the result is not the nearest key.
- The `ack` field is commented as the sequence number of the acknowledged datagram (pasta/connection.py:201). Step 1 of `compute_RTT` only tests `ack > -1` (line 115). It compares the datagram's sequence number with the acker's sequence number (lines 108-110).
- The classifier reads `sent_by_client`, `payload_len` and `rtt` (pasta/plugins/connection_type.py:116-142), while the datagram class defines `sentByClient`, `payloadLen` and `RTT` (pasta/connection.py:196-202). The model treats them as the same fields.
- The comments on the classifier's constants (pasta/plugins/connection_type.py:48-49) call `scp_up_min_asymetry` the bound for a server that sent more, and line 73 uses it for `scp (down)`. The model keeps the source's names.

## Model

| member | source | states |
|---|---|---|
| ConnectionSummary.Summarize | pasta/connection.py:44-51 | each datagram counter is the number of positions holding a datagram of that side; each byte counter is the total length of the datagrams at that side's positions; the two counts add up to the number of datagrams and the two byte counts to the connection's total length |
| ConnectionSummary.SentNb | pasta/connection.py:44-47 | the `sum(1 for p ... if ...)` of one side; `SentNbCountsSide` states what it counts |
| ConnectionSummary.SentLen | pasta/connection.py:48-51 | the `sum(p.totalLen ...)` of one side; `SentLenSumsSide` states what it sums |
| ConnectionSummary.SentLenSumsSide | pasta/connection.py:48-51 | the byte counter of a side is the total length of the datagrams at exactly that side's positions |
| ConnectionSummary.SentNbCountsSide | pasta/connection.py:44-47 | the per-side counter counts exactly the datagrams of that side |
| ConnectionSummary.SidesPartitionDatagrams | pasta/connection.py:44-47 | client and server datagram counts sum to the number of datagrams |
| ConnectionSummary.SidesPartitionBytes | pasta/connection.py:48-51 | client and server byte counts sum to the total length of all datagrams |
| Datagrams.Positions | pasta/plugins/stepping_stone_detection_serverside.py:97-98 | the positions a filtering comprehension visits: ascending, in range, each selected |
| Datagrams.PositionsComplete | pasta/plugins/stepping_stone_detection_serverside.py:97-98 | every position whose datagram is selected is listed |
| Datagrams.PayloadOnly | pasta/plugins/connection_type.py:133-135 | the payload datagrams, one for each payload position, in capture order; with `PositionsComplete`, none is dropped |
| RttMatching.Visit | pasta/connection.py:108-116 | one iteration leaves every pending acker at or after the scanned position |
| RttMatching.PendingAckers | pasta/connection.py:105-117 | the pending ackers after the backward scan has visited a suffix lie inside that suffix |
| RttMatching.PendingIsFirstCarrier | pasta/connection.py:115-116 | a side's pending acker is that side's first acknowledgement-carrying datagram at or after the scan position |
| RttMatching.PendingPersists | pasta/connection.py:108-116 | an acker pending at some position was pending at every later position down to itself |
| RttMatching.MatchSound | pasta/connection.py:108-114 | a datagram matched to acker a was sent before a by the other side; a is the first acknowledgement carrier of its side after the datagram and has a larger sequence number; the step-1 RTT is their time difference; an unmatched datagram keeps its RTT |
| RttMatching.ConsumedOnce | pasta/connection.py:112-114 | two datagrams never take their RTT from the same acker |
| RttMatching.PendingUntilConsumed | pasta/connection.py:107-116 | an acker stays pending during the backward scan exactly until a datagram consumes it |
| RttMatching.MatchWith | pasta/connection.py:108-110 | the test of one datagram against its other side's pending acker; `MatchSound` and `MatchComplete` state when it matches |
| RttMatching.AckerOf | pasta/connection.py:107-116 | the acker a datagram takes in the backward scan; characterized by `MatchSound` and `MatchComplete` |
| RttMatching.MatchPass | pasta/connection.py:105-117 | the step-1 RTT column, one entry per datagram; `MatchSound` and `MatchComplete` state which entries get the time to their acker |
| RttMatching.MatchComplete | pasta/connection.py:105-117 | a datagram is matched to the first later acknowledgement carrier of the other side exactly when that carrier has the larger sequence number and no datagram in between consumed it |
| RttFilling.PrevKnown | pasta/connection.py:121-148 | `last_RTT` of a side: the last earlier datagram of that side with an RTT, with none of that side known in between |
| RttFilling.NextKnown | pasta/connection.py:123-148 | the first datagram of a side, from a position on, that has an RTT |
| RttFilling.SideIndices | pasta/connection.py:122-126 | the positions of one side's datagrams in a range, ascending |
| RttFilling.SideIndicesComplete | pasta/connection.py:124-126 | every datagram of the side in the range is listed |
| RttFilling.SideIndicesMember | pasta/connection.py:124-126 | membership in the list holds exactly for that side's positions in the range |
| RttFilling.Slope | pasta/connection.py:137-139 | `diff` rounded down, as Python 2 divides a `timedelta` by an int; its use is stated by `InteriorRunInterpolates` |
| RttFilling.ExpectedRtt | pasta/connection.py:121-156 | the reference RTT of a datagram, defined by cases on the same side's known RTTs; `FillPassAt` equates step 2 with it |
| RttFilling.FillStep | pasta/connection.py:123-148 | one iteration of the forward scan, keeping the lanes well formed; `FillRunInv` states what it computes |
| RttFilling.FillRun | pasta/connection.py:121-148 | the forward scan over a prefix; `FillRunInv` is its invariant |
| RttFilling.FlushLane | pasta/connection.py:150-156 | the trailing loop for one side, keeping the length; `FlushLaneExpected` states its effect |
| RttFilling.FillPass | pasta/connection.py:121-156 | step 2, keeping the length; `FillPassAt` and `FillPassIsExpected` state its result |
| RttFilling.FlatFill | pasta/connection.py:129-133 | every waiting position gets the same RTT and no other position changes |
| RttFilling.Interpolate | pasta/connection.py:137-144 | the t-th waiting position gets `last_RTT + (i+t)*diff` and no other position changes |
| RttFilling.FillRunInv | pasta/connection.py:121-148 | after any prefix of the forward scan, each lane holds the last known RTT and the waiting positions of its side. Positions still waiting keep their step-1 value; every other position already has its expected RTT |
| RttFilling.ClosedRunOut | pasta/connection.py:128-146 | a known RTT gives each waiting position of its side its expected value and leaves every other position alone |
| RttFilling.FlushLaneExpected | pasta/connection.py:150-156 | after the scan, the trailing positions of a side get that side's last known RTT (none if the side has none), and nothing else changes |
| RttFilling.FillPassAt | pasta/connection.py:121-156 | the step-2 RTT of each datagram equals the reference `ExpectedRtt`. That is: a known RTT is kept; before the side's first known RTT the value is copied from it; after the last it is copied from the last; between two it is interpolated with floor division; with no RTT on the side it stays unset |
| RttFilling.FillPassIsExpected | pasta/connection.py:121-156 | the same, for all positions at once |
| RttFilling.FillKeepsKnown | pasta/connection.py:123-127 | step 2 never changes an RTT that was already set |
| RttFilling.LeadingRunCopiesFirst | pasta/connection.py:129-133 | datagrams before the first known RTT of their side get that RTT |
| RttFilling.TrailingRunCopiesLast | pasta/connection.py:150-156 | datagrams after the last known RTT of their side get that RTT |
| RttFilling.InteriorRunInterpolates | pasta/connection.py:134-144 | between known RTTs r0 and r1 of a side, with k unknown datagrams of that side between them, the i-th of them gets `r0 + i*((r1-r0) div (k+1))` |
| RttFilling.InteriorPositionInRun | pasta/connection.py:140-144 | the interpolation index of an interior datagram runs from 1 to the run length |
| RttFilling.DirectionWithoutRtt | pasta/connection.py:150-153 | a side with no RTT at all stays without RTTs |
| RttFilling.DirectionWithRtt | pasta/connection.py:121-156 | a side with at least one RTT ends with every datagram of that side having one |
| RttFilling.DirectionsIndependent | pasta/connection.py:121-126 | the RTTs one side receives depend only on that side's step-1 RTTs |
| RttFilling.PrevKnownPerSide | pasta/connection.py:121-148 | the previous known RTT of a side depends only on that side's RTTs |
| RttFilling.NextKnownPerSide | pasta/connection.py:121-148 | the next known RTT of a side depends only on that side's RTTs |
| RttFilling.ExpectedRttPerSide | pasta/connection.py:121-148 | the reference RTT of a datagram depends only on its own side's RTTs |
| Rtt.WithRtts | pasta/connection.py:112-113 | writing the RTT column changes only the RTT slot of each datagram |
| Rtt.ComputeRtt | pasta/connection.py:101-156 | `compute_RTT` keeps the datagram list's length and order and changes nothing but RTTs |
| Rtt.ComputeRttIsExpected | pasta/connection.py:101-156 | after both steps every datagram has the RTT the reference definition expects from the step-1 column |
| Rtt.MatchedRttKept | pasta/connection.py:108-114 | a datagram matched in step 1 ends with exactly the time to its acker |
| Rtt.PriorRttKept | pasta/connection.py:123-127 | an unmatched datagram that already had an RTT keeps it |
| Rtt.FillOnFullColumnIsIdentity | pasta/connection.py:123-148 | when every RTT is already set, step 2 changes nothing |
| ConnectionType.AsymmetryRatio | pasta/plugins/connection_type.py:114-124 | the server's share of payload lies in [0, 1]; it is 0 when the server sent no payload and 1 when only the server sent payload |
| ConnectionType.RatioAboveHalf | pasta/plugins/connection_type.py:68-76 | the share exceeds one half exactly when the server sent more payload than the client |
| ConnectionType.PayloadSent | pasta/plugins/connection_type.py:116-119 | the payload bytes of one side; `PayloadSentOfPayloadOnly` and the label lemmas state its use |
| ConnectionType.ReplyStep | pasta/plugins/connection_type.py:132-145 | one iteration of the time-to-reply loop; `ReplyStepAgrees` states its effect |
| ConnectionType.ReplyStepAgrees | pasta/plugins/connection_type.py:132-145 | on a payload datagram, the loop aborts exactly when the datagram answers one without RTT, and otherwise still agrees with the reference samples |
| ConnectionType.RunReplyScan | pasta/plugins/connection_type.py:130-145 | the time-to-reply loop over a prefix; `ReplyScanInv` is its invariant |
| ConnectionType.TimeToReply | pasta/plugins/connection_type.py:126-145 | `compute_time_to_reply`; `TimeToReplyIsExpected` equates it with the reference samples |
| ConnectionType.Samples | pasta/plugins/connection_type.py:136-145 | the reference samples of one side over the payload datagrams, stated without a loop state; `TimeToReplyIsExpected` uses it |
| ConnectionType.ReplyScanInv | pasta/plugins/connection_type.py:126-145 | the scan aborts exactly when an answered payload datagram has no RTT. Otherwise it holds the reference sample lists, and it remembers the last payload datagram under its own side's key |
| ConnectionType.MissingTriggerStep | pasta/plugins/connection_type.py:137-138 | an answered datagram without RTT lies either in the prefix or at the last step |
| ConnectionType.TimeToReplyIsExpected | pasta/plugins/connection_type.py:126-145 | `compute_time_to_reply` computes, for each side, one sample per payload datagram that answers a payload datagram of the other side with a non-zero RTT. The sample is the time between them divided by that RTT |
| ConnectionType.CountAtMost | pasta/plugins/connection_type.py:97-99 | the number of quick replies is at most the number of replies |
| ConnectionType.Qualifies | pasta/plugins/connection_type.py:94-108 | the test of one direction: it has samples and a large enough share of them is quick; `ShellIff` and `ReverseShellIff` state its role |
| ConnectionType.Classify | pasta/plugins/connection_type.py:56-112 | `analyse`; each label is characterized by `ScpDownIffVolumes`, `ScpUpIffVolumes`, `ShellIff`, `ReverseShellIff`, `TunnelIsFallback`, and the abort by `AbortIff` |
| ConnectionType.ScpDownIffVolumes | pasta/plugins/connection_type.py:68-75 | `scp (down)` exactly when the server sent some payload and at least 19 times the client's |
| ConnectionType.ScpUpIffVolumes | pasta/plugins/connection_type.py:76-83 | `scp (up)` exactly when the client sent at least 19 times the server's payload |
| ConnectionType.ServerSilentIsScpUp | pasta/plugins/connection_type.py:120-122 | a connection whose server sends no payload is `scp (up)` |
| ConnectionType.ClientSilentIsScpDown | pasta/plugins/connection_type.py:116-124 | a connection whose client sends no payload while the server sends some is `scp (down)` |
| ConnectionType.ShellWinsTies | pasta/plugins/connection_type.py:94-108 | outside the SCP ranges, a qualifying server direction gives `shell`, whatever the client direction gives |
| ConnectionType.ShellIff | pasta/plugins/connection_type.py:68-108 | `shell` exactly when the connection is outside both SCP ranges, the scan succeeds, and the server direction qualifies |
| ConnectionType.ReverseShellIff | pasta/plugins/connection_type.py:68-108 | `reverse shell` exactly when the connection is outside both SCP ranges, the scan succeeds, the server direction does not qualify and the client direction does |
| ConnectionType.AbortIff | pasta/plugins/connection_type.py:68-86 | the analysis fails on an unset RTT exactly when the connection is outside both SCP ranges and the time-to-reply scan fails |
| ConnectionType.TunnelIsFallback | pasta/plugins/connection_type.py:110-112 | `tunnel` exactly when the connection is outside both SCP ranges, the scan succeeds, and neither direction qualifies |
| ConnectionType.ClassifyTotal | pasta/plugins/connection_type.py:56-112 | when every payload datagram has an RTT, the analysis always yields a label |
| ConnectionType.PayloadSentOfPayloadOnly | pasta/plugins/connection_type.py:116-119 | payload totals do not see zero-payload datagrams |
| ConnectionType.ZeroPayloadIrrelevant | pasta/plugins/connection_type.py:133-135 | adding or removing zero-payload datagrams changes neither the ratio, nor the samples, nor the label |
| ConnectionType.SampleCounts | pasta/plugins/connection_type.py:136-145 | a side has no more samples than it sent payload datagrams, nor than the other side sent before the last datagram |
| ConnectionType.SamplesBounded | pasta/plugins/connection_type.py:126-145 | each side's sample list is no longer than that side's payload datagrams |
| PayloadClusters.ClosestGroup | pasta/plugins/stepping_stone_detection_serverside.py:160-169 | no key is returned exactly when every key is more than 3 from the payload; a returned key is one of the keys and within 3 |
| PayloadClusters.ClosestNotNearest | pasta/plugins/stepping_stone_detection_serverside.py:164-169 | with keys 12 and 16 and payload 13 the result is 16, although 12 is nearer |
| PayloadClusters.IndexOf | pasta/plugins/stepping_stone_detection_serverside.py:175 | the dictionary lookup finds the group holding the key |
| PayloadClusters.UpdateAveragePossible | pasta/plugins/stepping_stone_detection_serverside.py:171-179 | a re-keying is allowed only if the group's own key is more than 3 from its floor mean |
| PayloadClusters.ClusterStep | pasta/plugins/stepping_stone_detection_serverside.py:189-198 | one iteration of the clustering loop; `ClusterStepInv` states its effect |
| PayloadClusters.Cluster | pasta/plugins/stepping_stone_detection_serverside.py:187-198 | every group built has at least one member |
| PayloadClusters.ClusterStepKeepsNonEmpty | pasta/plugins/stepping_stone_detection_serverside.py:189-198 | one loop iteration keeps every group non-empty |
| PayloadClusters.MeanNearKey | pasta/plugins/stepping_stone_detection_serverside.py:175 | the floor mean of members within 3 of a key is within 3 of that key |
| PayloadClusters.RekeyNeverFires | pasta/plugins/stepping_stone_detection_serverside.py:194-198 | after a payload joins its closest group, `update_average_possible` is false, so groups are never re-keyed |
| PayloadClusters.NewGroupInv | pasta/plugins/stepping_stone_detection_serverside.py:191-192 | a payload far from every key opens a group keyed by itself and keeps the clustering invariant |
| PayloadClusters.JoinGroupInv | pasta/plugins/stepping_stone_detection_serverside.py:193-194 | a payload joining a group within 3 keeps the clustering invariant and adds just that payload |
| PayloadClusters.ClusterStepInv | pasta/plugins/stepping_stone_detection_serverside.py:189-198 | one iteration keeps the groups well clustered and adds exactly the payload to the members |
| PayloadClusters.ClusterInvariants | pasta/plugins/stepping_stone_detection_serverside.py:187-198 | the groups partition the payloads as a multiset; members lie within 3 of their key; keys lie more than 3 apart |
| PayloadClusters.GroupSizesSum | pasta/plugins/stepping_stone_detection_serverside.py:187-198 | group sizes add up to the number of payloads |
| PayloadClusters.SignificantMass | pasta/plugins/stepping_stone_detection_serverside.py:199-203 | `nb`, the members of groups above a tenth of the payloads; `MassAtMostPayloads` bounds it |
| PayloadClusters.MassAtMostPayloads | pasta/plugins/stepping_stone_detection_serverside.py:199-203 | the members of significant groups are at most all payloads |
| PayloadClusters.IsModallyDistributed | pasta/plugins/stepping_stone_detection_serverside.py:199-210 | a modal verdict implies some group holds more than a tenth of the payloads |
| PayloadClusters.EqualPayloadsOneGroup | pasta/plugins/stepping_stone_detection_serverside.py:187-198 | equal payload sizes form one group keyed by that size |
| PayloadClusters.EqualPayloadsModal | pasta/plugins/stepping_stone_detection_serverside.py:181-210 | equal payload sizes are always modally distributed |
| SteppingStone.ClientPayload | pasta/plugins/stepping_stone_detection_serverside.py:97-98 | the client datagrams with payload, one for each such position, in capture order; with `PositionsComplete`, none is dropped |
| SteppingStone.RttValues | pasta/plugins/stepping_stone_detection_serverside.py:115 | the RTT list succeeds exactly when every filtered datagram has an RTT, and then lists them in order |
| SteppingStone.IatStep | pasta/plugins/stepping_stone_detection_serverside.py:124-133 | one iteration of the IAT loop; `IatStepGaps` states its effect |
| SteppingStone.RunIatScan | pasta/plugins/stepping_stone_detection_serverside.py:123-133 | the IAT loop over a prefix; `GapsOfScan` is its invariant |
| SteppingStone.Iats | pasta/plugins/stepping_stone_detection_serverside.py:117-133 | the IAT list; `IatsAreGaps` states its content |
| SteppingStone.IatStepGaps | pasta/plugins/stepping_stone_detection_serverside.py:124-133 | a client payload datagram appends the gap since the previous one and becomes the last; any other datagram changes nothing |
| SteppingStone.GapsOfScan | pasta/plugins/stepping_stone_detection_serverside.py:123-133 | after any prefix, the loop holds the gaps between consecutive client payload datagrams and the last of them |
| SteppingStone.IatsAreGaps | pasta/plugins/stepping_stone_detection_serverside.py:123-133 | the IAT list has one entry per filtered datagram after the first; entry i is the time from filtered datagram i to filtered datagram i+1 |
| SteppingStone.Close | pasta/plugins/stepping_stone_detection_serverside.py:147-148 | the closeness test of one RTT and IAT; `CountCloseAligned` states its use |
| SteppingStone.CountClose | pasta/plugins/stepping_stone_detection_serverside.py:146-149 | the close count is at most the number of RTTs |
| SteppingStone.CountCloseAligned | pasta/plugins/stepping_stone_detection_serverside.py:115-149 | pairing `RTTs[i]` with `IATs[i]` after dropping the first RTT counts exactly the filtered datagrams whose RTT is non-zero and within half of itself of the gap since the previous one |
| SteppingStone.CompareRttIat | pasta/plugins/stepping_stone_detection_serverside.py:107-158 | `compare_RTT_IAT`; `InconclusiveIff`, `DecidedHasSamples` and `DecisionIsShareOfClose` characterize its answers |
| SteppingStone.InconclusiveIff | pasta/plugins/stepping_stone_detection_serverside.py:115-121 | the comparison is inconclusive exactly when every filtered datagram has an RTT and there are at most 20 of them |
| SteppingStone.DecidedHasSamples | pasta/plugins/stepping_stone_detection_serverside.py:116-121 | a conclusive comparison had more than 20 filtered datagrams |
| SteppingStone.DecisionIsShareOfClose | pasta/plugins/stepping_stone_detection_serverside.py:146-158 | a conclusive answer is "different" exactly when the close datagrams make up at most 1% of the datagrams after the first |
| SteppingStone.PayloadSizes | pasta/plugins/stepping_stone_detection_serverside.py:187 | the payload sizes of the filtered datagrams, in order |
| SteppingStone.IsSteppingStone | pasta/plugins/stepping_stone_detection_serverside.py:100-105 | `is_stepping_stone`; `VerdictIff` characterizes it |
| SteppingStone.VerdictIff | pasta/plugins/stepping_stone_detection_serverside.py:100-105 | flagged exactly when the comparison is conclusive and either says "different" or the payload sizes are modal; inconclusive gives False |
| SteppingStone.EqualSizesFlagged | pasta/plugins/stepping_stone_detection_serverside.py:100-105 | with all client payload sizes equal, a conclusive comparison always flags the connection |
| SteppingStone.AnalyseConnection | pasta/plugins/stepping_stone_detection_serverside.py:58-66 | the loop body of `analyse` for one connection; `SmallConnectionNotFlagged` and `VerdictIff` state its result |
| SteppingStone.SmallConnectionNotFlagged | pasta/plugins/stepping_stone_detection_serverside.py:58-66 | a connection of at most 20 datagrams is not flagged |
| SteppingStone.Analyse | pasta/plugins/stepping_stone_detection_serverside.py:52-66 | one verdict per connection |
| SteppingStone.Collect | pasta/plugins/stepping_stone_detection_serverside.py:56-66 | the loop over connections, aborting on the first failure; `CollectPerEntry` states its result |
| SteppingStone.CollectPerEntry | pasta/plugins/stepping_stone_detection_serverside.py:56-66 | the loop over connections succeeds exactly when every verdict does, and then lists them in order |
| SteppingStone.AnalysePerConnection | pasta/plugins/stepping_stone_detection_serverside.py:56-66 | the analysis of all connections succeeds exactly when each succeeds, and then gives each connection its own verdict, in order |

## Left out

- Logging, `__repr__`, `summary`, `result`, `result_fields` and `result_repr`: these only format text.
- `compute_RTT_2`: the source marks it as an old version to remove, and nothing calls it.
- The connection ID counter and the addresses, ports, protocols, start time and duration: these are stored unchanged and never computed on.
- Plugin registration, `activate`, `load_connections` and the dictionary keyed by connection objects: `Analyse` returns the verdicts as a list in connection order.
- Time stamps and RTTs are integer microseconds. The RTT/IAT test, the asymmetry ratio and the time-to-reply samples use exact reals instead of floating point, so the rounding of `float` and of `total_seconds()` is not modelled. Interpolation uses Python 2 `timedelta` division by an int, which rounds down; the model uses floor division for it.
- Python dictionaries iterate in an unspecified order; the groups are kept in insertion order. The proved clustering facts do not depend on that order. The one result that does depend on it is `ClosestNotNearest`, which states the keys' order.
- The re-keying branch of `is_PS_modally_distributed`, which moves a group to its floor mean, is modelled as removing the group and appending it under the new key. `RekeyNeverFires` shows that the branch never runs.
- The source mutates datagram objects in place, and the detector and classifier see the same objects. The model passes values instead; aliasing is not modelled.
- The randomised and clock-based unit-test fixtures of the classifier are not modelled. The SCP test expectation corresponds to `ServerSilentIsScpUp`.
- The commented-out plotting code of `compare_RTT_IAT` is not modelled.
- PayloadClusters.IsModallyDistributed: its own contract states only that a modal verdict needs a significant group. It requires a non-empty payload list, because the source divides by the list's length when it logs. `IsSteppingStone` calls it only after a conclusive comparison, which guarantees more than 20 payloads.
- PayloadClusters.Cluster: its own contract states only that groups are non-empty; the full invariant is `ClusterInvariants`.
- RttMatching.Visit: its own contract states only where the pending ackers lie; the content of a match is stated by `MatchSound` and `MatchComplete`.
- RttMatching.PendingAckers: the same, for the whole backward scan.
- RttFilling.SideIndices: its own contract states only order and side; completeness is `SideIndicesComplete` and `SideIndicesMember`.
- SteppingStone.Analyse: its own contract states only the length; per-connection agreement is `AnalysePerConnection`.
- SteppingStone.CountClose: its own contract states only the bound; what it counts is `CountCloseAligned`.
- ConnectionType.CountAtMost: its own contract states only the bound; it counts the samples at most the limit.
