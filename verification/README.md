# Twin platform: verified models

Dafny 4.11 models of the parts of the digital-twin platform whose promises are about every input or
every run, with proofs of those promises. `dafny verify dfyconfig.toml` checks the whole project.

Each component follows the form of the code it models. Code that changes state step by step is a class
or a method with loops, and its `ensures` ties the new state to a step function of the old one (`Abs()`
is the abstract value of an object); the properties are lemmas about those step functions, over all
inputs or over all runs (`Run(es)` applies a list of events, in which anything the environment decides
is an arbitrary event).

| files | what they model |
|---|---|
| `Text`, `Regexes`, `Templates`, `TemplateText`, `Printing`, `Utterances`, `Noise`, `Generators` | the voice-command grammar: template text to regular expression and back, utterance generator, transcription damage |
| `Scheduling`, `Encoding`, `Timetables`, `Solver` | the maintenance optimiser: CP-SAT encoding, objective, extraction, overlap sweep (module `Conflicts`) |
| `EdgeOutbox`, `EdgeProtocol` | edge store-and-forward, its threads and crashes, and the idempotent ingest behind it |
| `LiveClient`, `LiveProtocol` | live topic subscriptions: browser client and server hub (module `LiveHub`) |
| `Sparkplug` | the Sparkplug B edge node (Eclipse Sparkplug 3.0.0, chapter 5 "Operational Behavior" and chapter 6 "Payloads") |
| `StateTime`, `Shifts` | state-time accounting, its feeding query and trend; the shift calendar and the engine loop |
| `Degradation`, `Machines` | degradation processes and remaining life; the machine state machine (modules `Machines`, `MachineRuns`) |
| `Drift`, `Baseline`, `AdaptiveAlarm` | the KS statistic, the least-squares baseline (modules `Sums`, `Baselines`), the adaptive alarm |
| `Options`, `Reals` | the option type; signs, products and quotients of reals |

Where the code falls short of its own documentation, the code is modelled as it is, a lemma shows an
input or run that fails, and another says exactly when it holds:

- An outbox does not always empty while connected: `EdgeProtocol.StrandedIsReachable`, `EdgeProtocol.StrandingSteps`.
- The live client can hold two sockets: `LiveProtocol.StaleFailureOpensTwo`, `LiveProtocol.SingleStep`.
- A bracketed group ends at the first token that ends with its closer, so nested groups can be lost:
  `Printing.NestedOptionalIsLost`. `[[x]]` is read all the same (`Printing.NestedAloneIsRead`);
  `Printing.ParseShow` has the exact condition.
- `_fill` leaves a bracket in a choice with one branch and in an optional group inside another, also in
  templates the parser reads: `Generators.FillTextIsFillIff`, `Generators.TextRoundTripIff`.
- "two" for "to" is listed among the confusions but `_literal` never looks, because "to" is a filler:
  `Utterances.SubstitutionTolerated`, `Utterances.NoiseStaysIff`.
- The pruned event query leaves events of one time unordered, and the table allows them:
  `StateTime.PruningIsExact`.
- The twelve trend buckets add up to the window only when twelve divides it, and a window of at most six
  ticks has none: `StateTime.TrendConservesIff`, `StateTime.NoBuckets`.
- An adaptive rule can be silent for ever: `AdaptiveAlarms.CanAlarmIff`.
- The overlap sweep reports an empty bar listed after one of the same start: `Conflicts.EmptyBarReported`,
  `Conflicts.SweepIsExactIff`.
- Rounding can flag a point its own fit would not: `Baselines.RoundingFlags`, `Baselines.FewStoredAnomalies`.
- A Sparkplug birth can follow the death certificate of its session: `SparkplugNode.BirthAfterDeath`,
  `SparkplugNode.RunConforms`.

## Model

| member | source | states |
|---|---|---|
| Regexes.JoinLoop | packages/nlu/src/twinvoice_nlu/rules.py:137-152 | the loop with its `anchored` flag builds the regex `JoinParts` describes part by part |
| Regexes.KeepAnAnchor | packages/nlu/src/twinvoice_nlu/rules.py:115-124 | every non-empty part list has a required part afterwards; fragments stay, and only the first of an all-optional list changes |
| Regexes.JoinLanguage | packages/nlu/src/twinvoice_nlu/rules.py:137-152 | for every part list, anchored or not, the joined regex matches exactly the choices of parts that keep every required one and any optional ones, with one separator run between kept neighbours once a required part exists |
| Regexes.JoinSound | packages/nlu/src/twinvoice_nlu/rules.py:137-152 | a match of the joined regex yields the choice of parts it spells |
| Regexes.JoinComplete | packages/nlu/src/twinvoice_nlu/rules.py:137-152 | every such choice is matched |
| Templates.LiteralMeaning | packages/nlu/src/twinvoice_nlu/rules.py:66-76 | a function word stands for any function word and may be missing; any other word for itself or its listed confusions |
| Templates.DroppableIsOptional | packages/nlu/src/twinvoice_nlu/rules.py:115-124 | which nodes of a template may be left out: the optional ones, except the first when all are optional |
| Templates.CompileMeaning | packages/nlu/src/twinvoice_nlu/rules.py:79-152 | at any nesting depth the compiled regex matches exactly what the template says, where what it says is defined without regexes |
| Utterances.UtteranceLanguage | packages/nlu/src/twinvoice_nlu/rules.py:79-152 | on normalised text the language is exactly the single-space joins of the readings of the template |
| Utterances.CleanEndsNeedAnAnchor | packages/nlu/src/twinvoice_nlu/rules.py:137-152 | a match has no separator at either end exactly when some part is required; this is why an anchor is kept |
| Utterances.EndsAreClean | packages/nlu/src/twinvoice_nlu/rules.py:137-144 | no well-formed template ever matches text with a leading or trailing separator, nor empty text |
| TemplateText.Group | packages/nlu/src/twinvoice_nlu/rules.py:127-134 | finds the first token that ends with the closer, or reports that none does |
| TemplateText.ParseGroup | packages/nlu/src/twinvoice_nlu/rules.py:98-107 | the group branches of `_parse` emit the part of the node the grammar reads there |
| TemplateText.ParseBranches | packages/nlu/src/twinvoice_nlu/rules.py:100-103 | the alternatives of a group, each parsed and joined, are the compiled options |
| TemplateText.ParseLoop | packages/nlu/src/twinvoice_nlu/rules.py:79-112 | the index loop with its pending literals emits exactly the compiled parts of the parsed template, and fails exactly when a bracket is not closed |
| TemplateText.ReadOpensNoWord | packages/nlu/src/twinvoice_nlu/rules.py:90-110 | whatever text is read, at any depth no token that opens a group or is a slot has been taken for a word |
| TemplateText.PaddingIsIgnored | packages/nlu/src/twinvoice_nlu/rules.py:102 | spaces around the branches of a choice make no difference |
| Printing.GroupRead | packages/nlu/src/twinvoice_nlu/rules.py:127-134 | of a bracketed body the parser takes the whole when no token before the last ends with the closer, and less than the whole otherwise |
| Printing.BarIffForks | packages/nlu/src/twinvoice_nlu/rules.py:100 | a printed template contains the bar at which branches are split exactly when a choice in it has several branches |
| Printing.ReadTextShrinks | packages/nlu/src/twinvoice_nlu/rules.py:79-112 | whatever text is read, the template printed is no longer than the text |
| Printing.ParseShow | packages/nlu/src/twinvoice_nlu/rules.py:79-112 | parsing a printed template gives it back exactly when no token of a group before its last ends with the closer, no branch of a choice prints a bar and nothing is empty, at every depth |
| Printing.NestedOptionalIsLost | packages/nlu/src/twinvoice_nlu/rules.py:127-134 | `[[x] y]` is not read back, whatever the words |
| Printing.NestedAloneIsRead | packages/nlu/src/twinvoice_nlu/rules.py:127-134 | `[[x]]` is read back, whatever the word |
| Generators.FillLoop | packages/nlu/src/twinvoice_nlu/suite.py:49-71 | the rewriting of the text: slots in order, with a sample put in or without one taken out, then the two bracket expressions, then white space |
| Generators.SampledSlots | packages/nlu/src/twinvoice_nlu/suite.py:51-65 | with a sample for every slot nothing is taken out |
| Generators.GroupGoes | packages/nlu/src/twinvoice_nlu/suite.py:59-61 | the optional group that holds a slot without samples goes, and the text around it stays |
| Generators.SlotTakenOut | packages/nlu/src/twinvoice_nlu/suite.py:58-62 | for a slot without samples that is named once, its optional group goes from the text and nothing else does, whatever other groups come before or after |
| Generators.TextWithoutSlot | packages/nlu/src/twinvoice_nlu/suite.py:53-65 | what is generated then: the slots after it, the branches, brackets and white space are done as if the group had never been there |
| Generators.WhiteSpaceIs | packages/nlu/src/twinvoice_nlu/suite.py:71 | the last rewriting leaves the words of any text with single spaces between them |
| Generators.FillTextIsFillIff | packages/nlu/src/twinvoice_nlu/suite.py:49-71 | on templates that are read back the text rewriting takes first branches, opens optional groups and inserts samples exactly when every choice has at least two branches and, along first branches, no optional group is inside another |
| Generators.TextRoundTripIff | packages/nlu/src/twinvoice_nlu/suite.py:3-5 | what is generated from the text of a template the parser reads is in its exact language under the same condition and no other |
| Utterances.FillRoundTrip | packages/nlu/src/twinvoice_nlu/suite.py:49-72 | with samples in their slot languages, the generated utterance is in the template's exact language |
| Utterances.DamageIsAbsorbed | packages/nlu/src/twinvoice_nlu/rules.py:66-76 | it stays there when function words are dropped or swapped and other words misheard as listed, at any depth, as long as no part that must stay is lost |
| Utterances.Corrupt | packages/nlu/src/twinvoice_nlu/suite.py:75-89 | the noise loop: substitute, swallow when longer than three tokens, or keep; never the empty text |
| Utterances.NoiseIs | packages/nlu/src/twinvoice_nlu/suite.py:75-89 | what each token becomes: itself unless hit; misheard if it can be, and then never swallowed; of the others seven words are swallowed, only in utterances of at least four tokens |
| Utterances.SubstitutionTolerated | packages/nlu/src/twinvoice_nlu/suite.py:29-33 | a substitution the noise makes is one the grammar accepts, exactly for every token but "to" |
| Utterances.DropTolerated | packages/nlu/src/twinvoice_nlu/suite.py:75-89 | every word the noise swallows is one the grammar can miss: "what" is never among them, because it is misheard first |
| Utterances.CorruptionAbsorbed | packages/nlu/src/twinvoice_nlu/suite.py:75-89 | noise that leaves "to" alone never takes an utterance of plain words out of its template's language |
| Utterances.NoiseStaysIff | packages/nlu/src/twinvoice_nlu/suite.py:75-89 | where no "two" is hit, it takes one out exactly when it hits a "to" |
| Utterances.HitsMayCancel | packages/nlu/src/twinvoice_nlu/suite.py:29-33 | where a "two" is hit as well, a hit "to" may still be accepted: an example |
| Noise.UtteranceWords | packages/nlu/src/twinvoice_nlu/suite.py:78 | the tokens of a generated utterance are the words of the template's nodes, one after the other |
| Noise.NoiseAbsorbed | packages/nlu/src/twinvoice_nlu/suite.py:75-89 | for templates with choices, optional groups and slots at any depth, noise leaves a generated utterance in its template's exact language if it turns no "to" of the template into "two", leaves the words of slots alone and swallows a whole node only where the grammar can do without it |
| Noise.TooFewLeft | packages/nlu/src/twinvoice_nlu/suite.py:75-89 | noise that leaves fewer words than the template has nodes to be said always takes it out |
| Encoding.EncodeMeaning | apps/api/app/modules/maintenance/optimiser.py:113-189 | the constraint list holds of an assignment exactly when each order, technician, line and start indicator is as the statement over the variables says |
| Timetables.EncodingSound | apps/api/app/modules/maintenance/optimiser.py:113-164 | every satisfying assignment reads back as a timetable inside the horizon, with one able technician free throughout, sharing no technician or line |
| Timetables.EncodingComplete | apps/api/app/modules/maintenance/optimiser.py:113-164 | every such timetable is read back from some satisfying assignment |
| Timetables.TimetableFixesSolution | apps/api/app/modules/maintenance/optimiser.py:116-140 | assignments that read back alike agree on every variable of a schedulable order |
| Timetables.ObjectiveIsCost | apps/api/app/modules/maintenance/optimiser.py:166-197 | the sum over indicators equals the direct cost of the timetable, order by order |
| Timetables.OptimalTimetable | apps/api/app/modules/maintenance/optimiser.py:196-206 | a minimal assignment reads back as a timetable no feasible timetable undercuts |
| Scheduling.WaitingCosts | apps/api/app/modules/maintenance/optimiser.py:169-175 | for priorities up to six and costs that are not negative, waiting costs no less at a higher priority or where downtime costs more, and never less than nothing |
| Scheduling.PlacementCost | apps/api/app/modules/maintenance/optimiser.py:169-193 | the integer cost of a placement is, in hundredths and to less than one for each truncated coefficient, its start times the price of waiting, the weighted risk and energy of its slots, and the wage for its quarters of an hour |
| Solver.EncodeOrder | apps/api/app/modules/maintenance/optimiser.py:120-140 | the nested loops emit the constraints of one order |
| Solver.EncodeResources | apps/api/app/modules/maintenance/optimiser.py:145-164 | one no-overlap per technician with candidates and per line with two or more orders |
| Solver.PriceOrder | apps/api/app/modules/maintenance/optimiser.py:167-194 | the indicators and objective terms of one order, zero terms left out |
| Solver.BuildModel | apps/api/app/modules/maintenance/optimiser.py:113-197 | model and objective as the loops build them |
| Solver.OrdersPartition | apps/api/app/modules/maintenance/optimiser.py:142-143 | scheduled and unscheduled orders together are the orders, each once |
| Solver.ReadTimetable | apps/api/app/modules/maintenance/optimiser.py:215-238 | the assignments spell out the timetable, each with the first technician whose literal is true |
| Solver.FeasiblePlan | apps/api/app/modules/maintenance/optimiser.py:215-238 | what the assignments of a feasible timetable say: `[start, end)` holds the minutes of the order and one slot fewer would not, inside the horizon; the technician named is able and free throughout; the risk is the one at the start and the energy cost, to half a cent, the power times the tariffs of the slots; no two of one technician or line share a slot |
| Solver.PlacedIff | apps/api/app/modules/maintenance/optimiser.py:120-140 | a placement is exactly a start of someone with a skill in common, or for an order that asks for none, who is free for the slots the minutes need |
| Solver.LeftOutIff | apps/api/app/modules/maintenance/optimiser.py:142-143 | unscheduled are exactly the orders longer than the horizon and those nobody is able to do |
| Solver.Solve | apps/api/app/modules/maintenance/optimiser.py:83-246 | the answer is a plan as above, of a feasible timetable priced at its direct cost, cheapest of all when OPTIMAL, and the unscheduled are exactly the orders that must be left out; the empty, unstaffed and unsolved cases |
| Conflicts.FindConflicts | apps/api/app/modules/maintenance/optimiser.py:249-267 | the sweep with its early break finds what the check of all pairs finds; each conflict names two different bars, the earlier first, of which one begins before the other ends, as "technician" exactly when both have the same one and as "line" only when their orders share it; every overlapping pair that shares either is named so |
| Conflicts.SlotsKeepOrder | apps/api/app/modules/maintenance/service.py:552-553 | an instant lies in the slot it is floored to, so a bar's end does not come before its start, and only bars shorter than a slot become empty |
| Conflicts.SweepTestIsOverlap | apps/api/app/modules/maintenance/optimiser.py:255-256 | in start order the sweep's test holds of the overlaps and of empty bars at the start of a longer one, and no pair is both |
| Conflicts.EmptyBarReported | apps/api/app/modules/maintenance/optimiser.py:249-267 | two bars of one technician that share no time and are reported |
| Conflicts.SweepCounts | apps/api/app/modules/maintenance/optimiser.py:249-267 | as many conflicts are reported as there are overlapping pairs and such empty bars together |
| Conflicts.SweepIsExactIff | apps/api/app/modules/maintenance/optimiser.py:249-267 | exactly the overlapping pairs that share a technician or line are reported, each once, if and only if no empty bar is listed after a longer one of the same start that shares either |
| Conflicts.OverlapsReported | apps/api/app/modules/maintenance/optimiser.py:249-267 | every overlapping pair that shares a technician or line is reported, whatever order the bars come in |
| Conflicts.ConflictsAreOverlaps | apps/api/app/modules/maintenance/optimiser.py:249-267 | without such an empty bar every conflict has an overlapping pair behind it, and they are as many |
| Conflicts.SolvedHasNoConflicts | apps/api/app/modules/maintenance/optimiser.py:249-267 | nothing is reported on a timetable the solver produced |
| EdgeOutbox.StoreAndForward.Enqueue | apps/edge/edge/buffer.py:39-44 | a row with a fresh, larger id joins the end of the table |
| EdgeOutbox.StoreAndForward.DrainPage | apps/edge/edge/buffer.py:64-69 | of one page, rows leave in order, each after the broker took it, up to the first refusal |
| EdgeOutbox.StoreAndForward.Drain | apps/edge/edge/buffer.py:50-69 | oldest first across pages until empty or refused; exactly what went out has left the table, and every answer but the last was yes |
| EdgeOutbox.DeleteHead | apps/edge/edge/buffer.py:16-24 | deleting the head's id removes the head and nothing else |
| EdgeOutbox.EdgeRunner.Publish | apps/edge/edge/runner.py:118-126 | sent at once exactly when nothing is queued, the link is up and the broker accepts; queued last otherwise |
| EdgeOutbox.PredictionTable.StoreEdgePrediction | apps/api/app/ingest/edge_predictions.py:55-101 | a row is added exactly when the model resolves and no row has the id and time |
| EdgeOutbox.StoredOncePerKey | apps/api/app/ingest/edge_predictions.py:58-73 | whatever arrives and however often, one row for each prediction delivered with a known model |
| EdgeOutbox.StoredOnce | apps/api/app/ingest/edge_predictions.py:58-73 | one row for each id and time delivered with a known model, whatever else differs |
| EdgeOutbox.StoreIsDedup | apps/api/app/ingest/edge_predictions.py:58-73 | the table is the deliveries without repeats, in order of first arrival |
| EdgeProtocol.NothingLostOrReordered | apps/edge/edge/runner.py:118-141 | over every interleaving without a crash: accepted, then queued with a sent but undeleted head counted once, then in hand, is the sequence given to `publish` |
| EdgeProtocol.CrashesRepeatAtMostOnce | apps/edge/edge/buffer.py:53-54 | with crashes at any step: repeats are at most the crashes, and first deliveries are in order |
| EdgeProtocol.DeliveryIsNextOrHead | apps/edge/edge/buffer.py:53-69 | each delivery in each run is the next message owed or the outbox head once more |
| EdgeProtocol.DirectSendOvertakesNothing | apps/edge/edge/runner.py:122-124 | in every run a direct send happens only with an empty outbox and nothing being confirmed |
| EdgeProtocol.StoredIsOwedPrefix | apps/api/app/ingest/edge_predictions.py:58-73 | end to end, the stored predictions are a prefix of those owed, once each, and all of them once drained |
| EdgeProtocol.StrandedIsReachable | apps/edge/edge/runner.py:123-126 | `publish` sees a row, the replay sends and deletes it and ends, then the message is queued: connected, one message queued and no replay thread |
| EdgeProtocol.StrandingSteps | apps/edge/edge/runner.py:123-155 | exactly which steps strand messages: an enqueue with no replay alive, or a refusal of the last replay, while connected |
| EdgeProtocol.StrandedIff | apps/edge/edge/runner.py:123-155 | a run ends stranded exactly when such a step was taken and neither a disconnect nor a crash has come since |
| EdgeProtocol.StrandedUntilReconnect | apps/edge/edge/runner.py:155 | once stranded, nothing queued leaves before the next connect |
| EdgeProtocol.QuietAfterCrash | apps/edge/edge/buffer.py:53-54 | after a crash nothing is sent or deleted before the next connect, and what was queued stays queued |
| EdgeProtocol.EveryConnectReplays | apps/edge/edge/runner.py:155 | every connect has a replay thread of its own, which waits until it enters the replay or a crash ends it |
| LiveClient.LiveSocket.SubscribeTo | apps/web/src/lib/ws.ts:52-59 | counts every topic named and sends those that were new |
| LiveClient.LiveSocket.UnsubscribeFrom | apps/web/src/lib/ws.ts:60-69 | releases them and sends those that were spent |
| LiveClient.LiveSocket.Start | apps/web/src/lib/ws.ts:37-41 | a new generation with a connect of its own |
| LiveClient.LiveSocket.Stop | apps/web/src/lib/ws.ts:43-50 | a new generation, no timer, the socket closing and no longer current |
| LiveClient.LiveSocket.OnToken | apps/web/src/lib/ws.ts:76-87 | a failed token reconnects under the current generation, a stale one is dropped, else a new current socket |
| LiveClient.LiveSocket.OnOpen | apps/web/src/lib/ws.ts:88-92 | the keys of the topic map are sent on opening |
| LiveClient.LiveSocket.OnClose | apps/web/src/lib/ws.ts:94-99 | only the current socket's close schedules a reconnect |
| LiveClient.LiveSocket.ScheduleReconnect | apps/web/src/lib/ws.ts:113-120 | unless stopped, one timer, for the generation current now |
| LiveClient.LiveSocket.OnTimer | apps/web/src/lib/ws.ts:119 | the timer starts a connect under the generation it was set for |
| LiveHub.WsHub.Accept | apps/api/app/core/ws_hub.py:49-50 | a new socket starts with no topics |
| LiveHub.WsHub.Receive | apps/api/app/core/ws_hub.py:49-63 | a delta is applied to the well-formed topics of that socket and the set is answered; a removed socket ends |
| LiveHub.WsHub.PublishLocal | apps/api/app/core/ws_hub.py:65-74 | exactly the subscribed sockets are tried, and those that fail are removed |
| LiveProtocol.HubMirrorsClient | apps/web/src/lib/ws.ts:52-91 | in every run, with the current socket open and known to the hub, the hub's set after the messages in flight is the client's topics |
| LiveProtocol.CountsLiveSubscriptions | apps/web/src/lib/ws.ts:52-70 | in every run a topic is kept exactly while a live subscription names it, and its count is their number |
| LiveProtocol.UnheldStayUnheld | apps/web/src/lib/ws.ts:62-69 | releasing topics nobody holds changes no count and gives each up again |
| LiveProtocol.DeliveredWhenWanted | apps/api/app/core/ws_hub.py:65-67 | with nothing in flight, a live message goes to the current socket exactly when a subscription wants its topic |
| LiveProtocol.StoppedIsQuiet | apps/web/src/lib/ws.ts:43-50 | in every run, from `stop` to the next `start` there is no current socket and no timer |
| LiveProtocol.SingleStep | apps/web/src/lib/ws.ts:76-120 | exactly which steps keep one socket and one attempt: no second start while connected, no reconnect by a replaced token |
| LiveProtocol.OneSocketAtATime | apps/web/src/lib/ws.ts:37-120 | runs of such steps never have two sockets connecting or open |
| LiveProtocol.CalmIsSafe | apps/web/src/lib/ws.ts:76-120 | a step is one of these exactly when no tokens and timers still to come can open a second socket after it; after every other step some do |
| LiveProtocol.StaleFailureOpensTwo | apps/web/src/lib/ws.ts:81-83 | a token failing after its connect was replaced leads to two live sockets |
| LiveProtocol.RestartWaitsOnTwoTokens | apps/web/src/lib/ws.ts:37-50 | start, stop and start again reach the state that starts from |
| SparkplugNode.SparkplugEdgeNode.DoRebirth | apps/simulator/sim/publisher.py:144-150 | seq 0, an NBIRTH, then a DBIRTH for each device with values; `RebirthBirthsAll` says which those are in a run |
| SparkplugNode.SparkplugEdgeNode.PublishDevice | apps/simulator/sim/publisher.py:132-142 | nothing when offline, a DBIRTH for an unborn device, a DDATA for a born one |
| SparkplugNode.SparkplugEdgeNode.StopAnnounce | apps/simulator/sim/publisher.py:121-128 | a DDEATH for each born device, then the NDEATH |
| SparkplugNode.SparkplugEdgeNode.OnConnect | apps/simulator/sim/publisher.py:159-167 | a refused connect changes nothing; an accepted one registers the will and births everything |
| SparkplugNode.SparkplugEdgeNode.OnDisconnect | apps/simulator/sim/publisher.py:169-178 | nothing is born any more, and the next bdSeq is in the will, also after an attempt the broker refused |
| SparkplugNode.RebirthBirthsAll | apps/simulator/sim/publisher.py:144-150 | in every run a rebirth puts an NBIRTH and then one DBIRTH for each device published in any earlier step, each once, on the wire, and those are the devices alive on the wire afterwards |
| SparkplugNode.ConnectBirthsAll | apps/simulator/sim/publisher.py:159-167 | in every run an accepted connect opens a session with the will and puts the same there |
| SparkplugNode.PublishSends | apps/simulator/sim/publisher.py:132-142 | in every run a sample is one DDATA when its device is alive on the wire and one DBIRTH when it is not; it is alive afterwards; offline nothing is sent |
| SparkplugNode.AnnounceKillsAll | apps/simulator/sim/publisher.py:121-128 | in every run the announcement is one DDEATH for each device alive on the wire, each once, and then the NDEATH |
| SparkplugNode.RunOrderly | apps/simulator/sim/publisher.py:121-188 | in every run each entry on the wire is in order after those before it, by a definition over the wire alone, and the node knows which devices are alive |
| SparkplugNode.RunConforms | apps/simulator/sim/publisher.py:121-188 | what a run puts on the wire conforms, with nothing but a disconnect after a death certificate, exactly when no publish, rebirth or second announcement falls between an announcement and its disconnect |
| SparkplugNode.BirthAfterDeath | apps/simulator/sim/publisher.py:121-130 | a rebirth request served between the announcement and the disconnect puts a birth after the death certificate |
| SparkplugNode.SeqInEveryRun | apps/simulator/sim/publisher.py:102-104 | a device message's seq is the number of device messages since the last NBIRTH, itself included, mod 256 |
| SparkplugNode.DataAfterBirthInEveryRun | apps/simulator/sim/publisher.py:136-142 | a DDATA follows a DBIRTH of its device with no NBIRTH, disconnect or connect between |
| SparkplugNode.CertificatesMatchWill | apps/simulator/sim/publisher.py:99-100 | the NBIRTHs and NDEATH of a session carry the bdSeq of the will it connected with, which is the number of sessions and refused attempts that ended before, mod 256 |
| StateTime.DurationsFromEvents | apps/api/app/modules/analytics/oee.py:139-158 | the loop's durations are positive and give every selection of states its measured time |
| StateTime.DurationsMeasure | apps/api/app/modules/analytics/oee.py:139-158 | the seconds given to any selection of states are the instants of the period whose event in force is selected, in force being defined on the unsorted history |
| StateTime.InForceIs | apps/api/app/modules/analytics/oee.py:139-158 | the event in force is the latest by then, of a tie the last listed, and there is none before the first |
| StateTime.SelectionsAdd | apps/api/app/modules/analytics/oee.py:34-37 | disjoint selections of states never share an instant |
| StateTime.TotalIsCovered | apps/api/app/modules/analytics/oee.py:142-146 | all states together cover the period from the first event on and nothing before |
| StateTime.AvailabilityInRange | apps/api/app/modules/analytics/oee.py:34-38 | availability lies in 0..100 |
| StateTime.AvailabilityIs | apps/api/app/modules/analytics/oee.py:34-38 | it is the instants running over the instants not in maintenance; 0 exactly when none is running and 100 exactly when every one of some is |
| StateTime.SplittingConserves | apps/api/app/modules/analytics/oee.py:139-158 | cutting a period at any points and adding up gives the uncut durations |
| StateTime.PruningIsHarmless | apps/api/app/modules/analytics/repository.py:122-142 | the rows of the query give the durations of the whole history, if no two unordered events that count disagree |
| StateTime.PruningIsExact | apps/api/app/modules/analytics/repository.py:122-142 | the rows put the same state in force at every instant of the window, whichever rows the query returns, exactly when no two events of one time that count for it disagree |
| StateTime.OeeTrend | apps/api/app/modules/analytics/service.py:166-177 | the loop asks each bucket's own query, and gives up when the step is not positive |
| StateTime.TrendValue | apps/api/app/modules/analytics/service.py:166-177 | there are twelve values, and value k is the time measured in the k-th step of the window |
| StateTime.BucketsConserve | apps/api/app/modules/analytics/service.py:170-176 | buckets of one width, each from its own query, add up to the time they span |
| StateTime.BucketsSpanWindow | apps/api/app/modules/analytics/service.py:167-172 | twelve buckets of the computed step end where the window does exactly when twelve divides it, else within six ticks |
| StateTime.NoBuckets | apps/api/app/modules/analytics/service.py:167-169 | there is no bucket exactly when the window has at most six ticks |
| StateTime.TrendConservesIff | apps/api/app/modules/analytics/service.py:166-177 | the trend adds up to the durations of the window for every history, every answer of its queries and every selection of states exactly when the window is empty or twelve divides it |
| StateTime.AddsUpIs | apps/api/app/modules/analytics/service.py:166-177 | adding up to the window means adding up to the durations of the whole window, state by state |
| StateTime.TrendLoses | apps/api/app/modules/analytics/service.py:166-177 | for every other window one event is enough to see the difference |
| Shifts.InstancesLoop | apps/simulator/sim/shifts.py:19-34 | the nested loops list the occurrences day by day, overnight ones ending a day later |
| Shifts.ActiveLoop | apps/simulator/sim/shifts.py:36-41 | the search loop answers the first covering occurrence of yesterday and today |
| Shifts.ActiveIsGlobal | apps/simulator/sim/shifts.py:36-41 | the two-day search finds what a search of every day finds, earliest day first, for overnight and overlapping shifts and any working days |
| Shifts.WeeksAreAlike | apps/simulator/sim/shifts.py:19-51 | what is active, and when it next changes, is the same in every week |
| Shifts.OriginIsFree | apps/simulator/sim/shifts.py:26-28 | both depend on the weekday of a day and not on how days are numbered |
| Shifts.NextChange | apps/simulator/sim/shifts.py:43-51 | the next change is strictly later, also when the window is empty |
| Shifts.NextChangeIsEdge | apps/simulator/sim/shifts.py:43-51 | the next change is the begin or end of an occurrence on a working day of the eight searched, and none on any day lies between; where those days have none it is one day on |
| Shifts.ActiveConstantUntilChange | apps/simulator/sim/shifts.py:43-51 | the active shift is constant until the next change, in every calendar and at every instant |
| Shifts.ShiftProcess.Step | apps/simulator/sim/engine.py:138-143 | one turn of the loop: sleep past the change, then read the calendar |
| Shifts.WakesOnChange | apps/simulator/sim/engine.py:138-143 | the engine wakes epsilon after such a change and at no other time |
| Shifts.EngineMatchesCalendar | apps/simulator/sim/engine.py:138-147 | at every instant of a run the engine's shift is the calendar's, except within epsilon after a change |
| Degradation.DegradationProcess.StepBy | apps/simulator/sim/physics/process.py:69-74 | no wear for no time, when failed or at no rate; else an advance by the equivalent reference time |
| Degradation.DegradationProcess.AdvanceBy | apps/simulator/sim/physics/paris_law.py:65-69 | the advance of each law, for Paris in closed form with its test against the critical length |
| Degradation.DegradationProcess.Reset | apps/simulator/sim/physics/process.py:85-87 | rate and state as new |
| Degradation.DegradationProcess.JumpBy | apps/simulator/sim/physics/paris_law.py:74-76 | the jump of each law |
| Degradation.DegradationProcess.Hasten | apps/simulator/sim/machines/base.py:304-308 | only a life longer than the target is sped up |
| Degradation.WearIsDose | apps/simulator/sim/physics/taylor_tool_life.py:12-17 | Miner's rule: steps of any sizes and conditions use up exactly the sum of their reference times, and the process has failed exactly when that reaches what remained |
| Degradation.SameDoseSameWear | apps/simulator/sim/physics/process.py:69-74 | equal sums leave equal states, so neither order nor cutting of the steps matters |
| Degradation.StepSizeIsExact | apps/simulator/sim/physics/paris_law.py:15-16 | at constant conditions two steps are one step of their total |
| Degradation.FirstPassage | apps/simulator/sim/physics/wiener.py:51-57 | under the random laws a process has failed exactly when drift and draws have brought its level to 1 at the end of some step, even if they fell again, and until then they are its level |
| Degradation.MeanLife | apps/simulator/sim/physics/process.py:76-83 | with the mean increment such a process fails exactly when its true RUL has passed |
| Degradation.NoPaceNoWear | apps/simulator/sim/physics/process.py:69-83 | RUL is endless exactly at a pace that causes no wear, and then operation changes nothing |
| Degradation.RulFallsWithTime | apps/simulator/sim/physics/process.py:76-83 | true RUL falls by exactly the elapsed time, to 0, and failure comes exactly when elapsed time reaches it |
| Degradation.JumpAdds | apps/simulator/sim/physics/paris_law.py:74-76 | a jump raises the damage by its amount, capped at 1, less what a random law below level 0 has to make up first; it never mends |
| Degradation.ResetRenews | apps/simulator/sim/physics/process.py:85-87 | a reset process has no damage and its whole reference life ahead, under every law |
| Degradation.TargetFalls | apps/simulator/sim/machines/base.py:305 | the target of an injection falls evenly from 24 hours to one as the severity rises |
| Degradation.InjectionHitsTarget | apps/simulator/sim/machines/base.py:304-308 | a gradual injection that shortens the life makes true RUL exactly its target, between 1 and 24 hours, and otherwise changes nothing, under every law |
| Degradation.InjectedFailsOnTime | apps/simulator/sim/machines/base.py:304-308 | after it, operation at the same pace has failed exactly when the target time has passed |
| Machines.Machine.StepBy | apps/simulator/sim/machines/base.py:181-206 | the whole new state of a step: state, load, wear of every component, failure check |
| Machines.Machine.UpdateState | apps/simulator/sim/machines/base.py:283-291 | DOWN stays, maintenance runs down, else running or idle; `EveryStepOutcome` says which |
| Machines.Machine.CheckFailures | apps/simulator/sim/machines/base.py:267-281 | the first failed component takes the machine DOWN |
| Machines.Machine.InjectFault | apps/simulator/sim/machines/base.py:293-314 | gradual faults change a rate, sudden ones jump and may bring the machine down; unknown faults are refused |
| Machines.Machine.ResetParts | apps/simulator/sim/machines/base.py:316-330 | the named component, or all, as new; maintenance begins; unknown components are refused |
| Machines.Machine.Degrade | apps/simulator/sim/machines/base.py:262-265 | every component wears by its own process and no other is touched |
| Machines.Machine.SetLoadSetpoint | apps/simulator/sim/machines/base.py:222-225 | the operator's load, which is also the operating point for remaining life |
| MachineRuns.EveryRunIsConsistent | apps/simulator/sim/machines/base.py:181-330 | over every sequence of steps, faults, resets and setpoints: RUNNING or IDLE has no failed component, DOWN records one that has failed, and only RUNNING has load |
| MachineRuns.EveryStepOutcome | apps/simulator/sim/machines/base.py:181-206 | every step of every reachable machine ends RUNNING exactly when it is neither down nor still in maintenance, the plant produces, the setpoint, or else the plan, is positive and nothing has failed; IDLE exactly when only production or load is missing; components wear only in a step that works; load, operating point, time left and the first component to fail follow |
| MachineRuns.SetpointHolds | apps/simulator/sim/machines/base.py:222-225 | the operator's load is the load of every running step until it is set again, and at no positive load nothing runs |
| MachineRuns.FaultOutcome | apps/simulator/sim/machines/base.py:293-314 | a fault befalls the first component with its mode and no other: a sudden one raises the damage by the severity and stops the machine if something has failed, a gradual one leaves the sooner of the target and the life it had |
| MachineRuns.ResetOutcome | apps/simulator/sim/machines/base.py:316-330 | a reset leaves the components it is meant for undamaged with their whole lives ahead and every other as it is, and forgets the recorded failure exactly when it renews that component |
| MachineRuns.DownUntilReset | apps/simulator/sim/machines/base.py:283-285 | a step, fault or setpoint never leaves DOWN; a reset of something that exists always does |
| MachineRuns.DownIsAbsorbing | apps/simulator/sim/machines/base.py:267-285 | without a reset a DOWN machine stays DOWN with the same recorded component |
| MachineRuns.DownAgainAfterWrongReset | apps/simulator/sim/machines/base.py:316-330 | after a reset of one component the next step finds the machine DOWN if another has failed, and within the maintenance time only then |
| MachineRuns.WrongResetDoesNotHelp | apps/simulator/sim/machines/base.py:325-327 | resetting anything but the recorded component leads back to DOWN on the next step |
| MachineRuns.MaintenanceLasts | apps/simulator/sim/machines/base.py:286-291 | after a full reset the machine is in maintenance exactly while less than its duration has passed, however the time is stepped |
| MachineRuns.GradualFaultIsOnTime | apps/simulator/sim/machines/base.py:304-308 | a machine run at the pace a gradual fault was sized for is up only before the target, and the step in which that component stops it is the one that reaches the target |
| Drift.SortSorts | packages/xai/src/twinvoice_xai/drift.py:29-30 | sorting orders the sample and keeps its values |
| Drift.GapAtIsGap | packages/xai/src/twinvoice_xai/drift.py:34-36 | insertion points in the sorted samples give the gap between the empirical distributions of the unsorted ones |
| Drift.KsIsSupremum | packages/xai/src/twinvoice_xai/drift.py:27-36 | evaluated at sample points only, the statistic bounds the gap at every real, is the gap at some sample point, and lies in 0..1 |
| Drift.KsIsSymmetric | packages/xai/src/twinvoice_xai/drift.py:27-36 | exchanging the samples changes nothing |
| Drift.KsZeroIffSame | packages/xai/src/twinvoice_xai/drift.py:27-36 | the statistic is 0 exactly when the two distributions agree everywhere or a sample is empty |
| Drift.KsOneIffSeparated | packages/xai/src/twinvoice_xai/drift.py:27-36 | the statistic is 1 exactly when one sample lies entirely below the other |
| Baselines.FitBaseline | apps/api/app/modules/analytics/energy.py:63-96 | the sums the fit computes, its two ways of giving up, and the rounding of what is kept |
| Baselines.StoredIsNear | apps/api/app/modules/analytics/energy.py:90-96 | what is kept expects what the fit does, within half a unit of the sixth place for each coefficient |
| Baselines.StoredPlaces | apps/api/app/modules/analytics/energy.py:90-96 | r2 is kept to the nearest fourth place and the other coefficients to the nearest sixth |
| Baselines.NoBaselineIff | apps/api/app/modules/analytics/energy.py:64-78 | no baseline exactly with fewer than eight points or when production never varies |
| Baselines.NormalEquations | apps/api/app/modules/analytics/energy.py:80-83 | residuals add up to nothing and are orthogonal to x |
| Baselines.FitIsLeastSquares | apps/api/app/modules/analytics/energy.py:80-84 | the fit is the one line of least squared error among all real lines |
| Baselines.SquaresSplit | apps/api/app/modules/analytics/energy.py:84-86 | total squares are explained plus residual squares |
| Baselines.R2IsAFraction | apps/api/app/modules/analytics/energy.py:84-86 | r2 is missing exactly when energy never varies, lies in 0..1, is 1 exactly when every point is on the line and 0 exactly when the line is flat |
| Baselines.FindAnomalies | apps/api/app/modules/analytics/energy.py:99-124 | the observations above the baseline by more than sigma deviations, in order |
| Baselines.FlaggedIff | apps/api/app/modules/analytics/energy.py:32-36 | one-sided: flagged exactly when the deviation is positive and exceeds sigma standard deviations |
| Baselines.AnomaliesAppend | apps/api/app/modules/analytics/energy.py:110-124 | the anomalies of a list are those of its parts, in order |
| Baselines.AnomalyOfOne | apps/api/app/modules/analytics/energy.py:110-124 | one observation is an anomaly exactly when it lies more than sigma deviations above the line, and never without spread |
| Baselines.FewAnomalies | apps/api/app/modules/analytics/energy.py:80-113 | among the points a line was fitted on there are fewer anomalies than (n - 2) / sigma squared, by the coefficients before they are rounded |
| Baselines.NoAnomalyInSmallBaselines | apps/api/app/modules/analytics/energy.py:17-18 | with three deviations a fit of at most eleven points has none, by the same coefficients |
| Baselines.FewStoredAnomalies | apps/api/app/modules/analytics/energy.py:90-113 | the same for the baseline as it is kept, in terms of what is kept alone: fewer than (n - 2) times the square of the deviation rounded up, over the square of sigma deviations less what rounding may take |
| Baselines.RoundingFlags | apps/api/app/modules/analytics/energy.py:90-96 | eight points of which none is an anomaly before rounding and one is after it |
| AdaptiveAlarms.AlarmEngine.EvaluateAdaptive | apps/api/app/ingest/alarm_engine.py:77-128 | push, trim, then decide on the stored window |
| AdaptiveAlarms.AlarmEngine.Judge | apps/api/app/ingest/alarm_engine.py:102-128 | too few samples, no spread, within sigma, or an alarm with its threshold |
| AdaptiveAlarms.AlarmEngine.Expire | apps/api/app/ingest/alarm_engine.py:97 | an expired rule starts over with an empty list, and no other rule notices |
| AdaptiveAlarms.WindowIsLast | apps/api/app/ingest/alarm_engine.py:92-97 | after any run a rule's window holds exactly the last values evaluated under it since it expired |
| AdaptiveAlarms.NewestIsNear | apps/api/app/ingest/alarm_engine.py:106-115 | a value is in its own window, so its squared z-score is at most n - 1 |
| AdaptiveAlarms.NoAlarmWithoutRoom | apps/api/app/ingest/alarm_engine.py:103-117 | in every run an alarm needs sigma squared below the window size less one |
| AdaptiveAlarms.SpikeAlarmsIff | apps/api/app/ingest/alarm_engine.py:106-117 | the bound is attained: a spike after a flat history alarms exactly when sigma leaves room |
| AdaptiveAlarms.CanAlarmIff | apps/api/app/ingest/alarm_engine.py:89-117 | a rule can ever alarm exactly when sigma is negative or its square is below the samples kept less one |
| AdaptiveAlarms.DefaultsCanAlarm | apps/api/app/ingest/alarm_engine.py:89-92 | an unknown or missing window keeps an hour of samples and a missing sigma is three, so such a rule can alarm |
| AdaptiveAlarms.AlarmCarries | apps/api/app/ingest/alarm_engine.py:115-128 | for a sigma that is not negative an alarm carries its rule, its value and a threshold sigma deviations above the mean, which a high value has passed and a low one has not |
| AdaptiveAlarms.SilentRule | apps/api/app/ingest/alarm_engine.py:21 | a five-minute rule at eighteen deviations never alarms |

## Left out

- Relaxed matching: the relaxed pattern, `match` and the ranking in `_best` are not modelled, nor capture groups and slot labels; slot patterns are arbitrary languages.
- Regular expressions with the separator `\s+` are over text in which spaces are the only white space, as `normalise` leaves it; `normalise` itself is not modelled.
- Generators.TextRoundTripIff: every slot of the template has a sample, samples contain no template syntax and have single spaces, and no slot language contains a bracket, as none of the slot patterns does.
- Generators.TextWithoutSlot: the slot is named once, in an optional group.
- Utterances.CorruptionAbsorbed: for templates of plain words, `Noise.NoiseAbsorbed` for the others; the random draws are an arbitrary list of hits.
- Noise.NoiseAbsorbed: a sufficient condition, with `Noise.TooFewLeft` a sufficient one for the opposite; no word of the template has a space in it.
- Utterances.NoiseStaysIff: exact where no "two" is hit; a hit "two" turns into a filler, which may stand in for the one a hit "to" was.
- Printing.ParseShow: words and slot names contain no template syntax.
- Solver.Solve: CP-SAT is an oracle that returns satisfying, and when OPTIMAL minimal, assignments of the model built here; timeouts and solve times are not modelled, and order and technician ids are distinct, as the dictionaries keyed by them require.
- EdgeProtocol.StoredIsOwedPrefix: every model is registered, and different predictions have different id or time.
- EdgeProtocol.NothingLostOrReordered: one publisher thread, and no message is handed to `publish` twice; a message the MQTT client takes counts as accepted, its own queue and QoS handshakes are not modelled; a message a crash takes from the publisher's hands before it is queued is not owed.
- LiveProtocol.HubMirrorsClient: handlers, message dispatch, heartbeats and backoff delays are not modelled; a timer may fire at any time.
- LiveProtocol.CountsLiveSubscriptions: the function `subscribe` returns is called at most once.
- SparkplugNode.RunOrderly: metric payloads and timestamps are not modelled; broker connect and `_on_connect` are one step, and so are disconnect and `_on_disconnect`, because `connected` is read outside the lock.
- StateTime.DurationsFromEvents: times are whole ticks and rounding calls are left out; the merged timeline of line and plant scope is not given a meaning of its own.
- Shifts.ActiveIsGlobal: one fixed UTC offset; no daylight saving.
- Degradation.AdvanceBy: the class is one for all laws, told apart by a datatype; acceleration and the Arrhenius factor are one arbitrary pace per step, powers are a pair of functions with the inverse and monotonicity laws of x^k, and random increments are arbitrary inputs; floating point is real arithmetic.
- Machines.Machine.StepBy: sensors, energy, production counting, thermal lag, ground-truth labels, active-mode bookkeeping and event messages are not modelled; the load walk is an arbitrary value.
- Machines.Machine.InjectFault: severities lie in 0..1, as the simulator's API and scenario schema require.
- Baselines.FitBaseline: the square root is any function with the law of one; the rounded copies of energy and deviation in an anomaly are not modelled.
- Baselines.FewAnomalies: the fit before its coefficients are rounded, as in the other lemmas about the fit; the kept one is the subject of `Baselines.FewStoredAnomalies`, where units are not negative.
- AdaptiveAlarms.AlarmEngine.EvaluateAdaptive: the stored JSON, timestamps and the fields copied from the rule are not modelled; expiry may happen at any time.
- AdaptiveAlarms.WindowIsLast: a rule keeps its definition during the run.
- Downtime Pareto, OEE factor formulas, ADWIN split search, threshold alarms: short formulas or single loops that would add easy members.
- Weibull risk, Arrhenius and thermal lag formulas: they need exponential and logarithm axioms for little gain.
- The ingest consumer's batching: its buffers are appended outside its lock, so conservation of rows does not hold as written.
