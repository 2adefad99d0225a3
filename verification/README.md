# SnmpLens: verified models of the backend's protocols

SnmpLens is a desktop SNMP tool. Its Go backend rests on a handful of small protocols
whose guarantees are written down in comments. This project states those protocols in
Dafny, as the code runs them, and proves the guarantees for every input, run and
interleaving. Where a written promise is not true of the code, the project says for
which inputs it fails and proves exactly when it holds.

Run `dafny verify dfyconfig.toml` in this directory.

## What is modelled

* **Event routing** (`RouterState`, `EventRouter`, `RouterProtocol`, `RouterGuarantee`,
  `RouterRetries`, `RouterOvertaken`).
  Journalled events are registered, queued, batched and written to the outbox together
  with a watermark. The router is a class whose methods are proved against state
  functions; the protocol splits them at lock and transaction boundaries and lets
  producers, the router, the database, crashes and replays interleave freely. Three
  duties of the environment are explicit. A seq is registered above every mark, and live
  routing starts with nothing owed: both are shown necessary and sufficient, with runs from
  the start in which they are not kept and an event is lost. And nothing is accepted while a
  replay runs: this one is assumed. The code starts dispatcher and router before it replays
  (internal/app/app.go:115-128), so a dead letter of the dispatcher can be accepted during the
  replay, although the comment there says that the two cannot interleave. Accepting is live
  routing: it is the GoLive step, taken while something is owed.
* **Threshold incidents** (`Breach`, `BreachRuns`, `BreachBands`, `BreachReach`). The
  evaluator class, and what the events of a whole run of samples amount to, told without an
  evaluator, on readings and limits alone: episodes, dwell time, openings, resolutions,
  restarts, targets that stop answering.
* **The INDEX codec** (`IndexCodec`, `IndexLoops`, `IndexRoundTrip`, `IndexLayout`,
  `IndexText`). Rows of a MIB table to and from one value per INDEX object: the layout of
  section 7.7 of RFC 2578, object by object, and the round trips.
* **Message templates** (`Template`, `TemplateLoops`, `TemplateMeaning`, `TemplateOwnLine`,
  `TemplateText`, `TemplateLines`, `TemplateNames`, `TemplateChecks`). Scanner, in-place
  own-line pass, flat renderer and independent validator; a valid template means a tree,
  writing a tree down and scanning it gives the tree back, and the renderer prints it.
* **Presets** (`Preset`, `PresetLoops`, `PresetCost`, `PresetInstances`, `PresetBands`).
  Expansion over a walk of unknown size, what it becomes, its bounds, its stated cost, and
  bands that agree.
* **Import cycles** (`Cycle`, `CycleSearch`, `CycleTree`, `CycleOrder`, `CycleReports`,
  `CycleOnce`). The three-colour search with its stack, the tree its paths form, and exactly
  when every loop is reported.
* **The poll clock** (`Overrun`, `OverrunRuns`, `Counters`, `CounterRuns`). The guardrail
  that widens the period, and counter deltas over polls.
* **Choosing destinations** (`RouteSelect`, `RouteScan`, `RouteOrder`, `RoutePrefix`,
  `RouteGroups`, `RouteDelivery`, `RouteFields`). The in-place sort of the rules, the scan with its stop
  rule, and the groups an event is queued in.
* **Draining the outbox** (`Dispatch`, `DispatchRuns`, `Dispatcher`, `DispatchAttempts`,
  `Backoff`). One worker per destination in any interleaving, attempts and waits.

`Basics` and `Text` hold the vocabulary they share. A loop of the source is a method
proved to compute a function; the theorems are lemmas about those functions. What the
outside world decides (a read that fails, a transaction that commits, an answer from a
receiver, a clock) is a parameter or a nondeterministic step.

## Where the code and a written promise part

* Encoding an INDEX value guards its length at 2^32-1, decoding at 2^31-1
  (`IndexRoundTrip.EncodedIndexReadsBack`, `LongTextIsNotReadBack`).
* A tag alone on its line keeps an empty line behind when it stands right after another
  such tag (`TemplateOwnLine.EveryLoneLineRemovedExactly`, `TwoLineSectionKeepsALine`).
* The cycle search does not find every cycle (`CycleSearch.NotEveryCycleIsReported`). It
  does find one through a module of each, and it finds every one, up to order and entry,
  exactly when no import between modules that reach each other is passed over
  (`CycleReports.EveryLoopIsReportedExactly`). One simple path each way between such modules
  is enough (`CycleReports.OnePathEachWayIsEnough`).
* The wait before a retry overflows from attempt 31 on
  (`Backoff.WaitsAreBoundedExactly`); no delivery gets that far
  (`DispatchAttempts.SixSendsAtMost`).
* Registering an event in a step of its own can lose it when producers overtake each
  other (`RouterGuarantee.RegistrationIsSafeExactlyAboveTheFloor`,
  `RouterOvertaken.ProducersCanOvertake`), and so can live routing after a replay that
  stopped (`RouterGuarantee.GoingLiveIsSafeExactlyWhenNothingIsOwed`,
  `RouterOvertaken.AStoppedReplayCanStrand`).

## Model

| member | source | states |
|---|---|---|
| `RouterGuarantee.NothingAcceptedIsLost` | internal/app/router.go:156-244 | through every interleaving of producers, flushes, failed routing, failed writes, crashes and replays in which the environment keeps its duties, each event that was accepted is written with all its rows or still lies above the stored watermark, and that watermark never goes back |
| `RouterGuarantee.CompletedReplayHasDeliveredEverything` | internal/app/router.go:479-527 | when a replay finds nothing above its mark, every event ever accepted in any life of the process has every row of its decision in the outbox, and live routing may start |
| `RouterGuarantee.EveryOwedEventHasOnePlace` | internal/app/router.go:246-335 | an owed event is in exactly one of a producer's hands, the queue, the batch, a transaction, the deferred list and the overflow; no transaction or batch exceeds 50 events, neither queue nor deferred list 2048 |
| `RouterGuarantee.RegistrationIsSafeExactlyAboveTheFloor` | internal/app/app.go:873-903 | in every state an orderly run reaches, registering an event not decided yet keeps the promise through all later orderly runs if and only if its seq is above every mark stored, confirmed or being written; otherwise the proof builds the run that loses the event, with room in the queue or without |
| `RouterOvertaken.ProducersCanOvertake` | internal/app/app.go:873-903 | and it happens: a run from the start in which two producers insert 1 and 2, the second is registered and flushed first, and 1, then registered and accepted, is lost; each earlier step is one the environment may take |
| `RouterGuarantee.GoingLiveIsSafeExactlyWhenNothingIsOwed` | internal/app/router.go:142-149 | a fresh router, which starts its marks from zero, keeps the promise from there on if and only if no accepted event is still owed; otherwise a run that loses one is built |
| `RouterOvertaken.AStoppedReplayCanStrand` | internal/app/router.go:500-512 | and it happens: a run from the start in which an event is accepted, the process dies, the configuration cannot route it so that the replay has no batch to write, live routing starts, another event is served, and the first is lost |
| `RouterGuarantee.InOrderProducersAreOrderly` | internal/app/router.go:156-162 | a producer whose seq is above everything registered and stored always meets that condition |
| `RouterGuarantee.SettleKeepsThePromise` | internal/app/router.go:215-244 | settling after a write confirms at least the mark promised before it, whatever was registered or refused in between |
| `RouterGuarantee.MarkIsTheLargestSafeOne` | internal/app/router.go:188-213 | any mark above the one asked for would cover an event that stays in flight |
| `RouterGuarantee.CleanFlushCatchesUp` | internal/app/router.go:337-394 | a flush that routes all that is owed carries the highest registered seq as its mark and decides every event in flight |
| `RouterGuarantee.FlushIsARun` | internal/app/router.go:338-394 | a whole flush of the router object is a run of the protocol and leaves the state the object is proved to leave |
| `RouterGuarantee.AcceptIsARun` | internal/app/router.go:156-172 | so is a whole accept; the event is accepted exactly when the queue has room |
| `RouterGuarantee.DrainIsARun` | internal/app/router.go:278-291 | so is a whole drain, whatever the writes do |
| `RouterGuarantee.TickIsARun` | internal/app/router.go:268-271 | so is a whole tick: what is due is taken and the batch flushed |
| `RouterRetries.RetryTimeExactly` | internal/app/router.go:307-318 | over any run whatever, nothing is due before the last failed write plus the wait of the writes that failed in a row: one second after one, doubled for each more, thirty at most; one write that gets through clears it |
| `RouterRetries.RetriesExactly` | internal/app/router.go:320-335 | after any run, a look at the deferred events before that time moves none of them; one from then on moves the oldest behind the batch, in order, up to fifty in the batch, and changes nothing else |
| `RouterRetries.EverythingDeferredGetsThrough` | internal/app/router.go:268-394 | once routing and writing work, one due tick for every fifty events that wait leaves batch and deferred list empty and every one of those events written with all its rows |
| `RouterRetries.OnlySurplusIsDropped` | internal/app/router.go:293-305 | what cannot be routed or written waits behind what waits already, in order, as far as 2048 events go; exactly the rest is dropped from the list |
| `RouterRetries.QueuedInOrder` | internal/app/router.go:250-266 | between flushes events reach the batch in the order in which they were handed over |
| `RouterProtocol.StepKeepsInv` | internal/app/router.go:156-394 | every orderly step keeps the invariant behind the guarantee: how the in-flight set stands to each mark in each phase of a flush, and where each event is |
| `RouterProtocol.MarkStaysBelow` | internal/app/router.go:188-213 | a mark asked for lies between what is confirmed and the highest seq, below every event it leaves in flight |
| `RouterProtocol.SettlingKeepsMarks` | internal/app/router.go:217-244 | settling a flush, or one refused event, confirms nothing that is still owed |
| `RouterState.PartitionIsExact` | internal/app/router.go:345-365 | a flush splits its batch into the routable and the others, each event once |
| `RouterState.GroupsHoldTheDecisions` | internal/app/router.go:349-365 | a flush asks for every row of every event it could route |
| `RouterState.GroupsHoldNothingElse` | internal/app/router.go:349-365 | and for no other row |
| `RouterState.DeferConserves` | internal/app/router.go:293-305 | deferring neither loses nor repeats an event: what does not fit is exactly the overflow, and the list never passes its depth |
| `RouterState.TakeConserves` | internal/app/router.go:320-335 | taking deferred events back conserves them and fills at most one batch |
| `EventRouter.Store.EnqueueRouted` | pkg/storage/watermark.go:85-129 | deliveries and watermark change together or not at all; rows are only added, the watermark only rises |
| `EventRouter.Router.constructor` | internal/app/router.go:142-149 | a new router knows nothing: empty lists and zero marks |
| `EventRouter.Router.LowestOwed` | internal/app/router.go:196-204 | the least seq of a set ranged over in any order, 0 when it is empty |
| `EventRouter.Router.MarkOf` | internal/app/router.go:205-212 | one below the least seq owed, or the highest when none is, and never below what is confirmed |
| `EventRouter.Router.AskMark` | internal/app/router.go:188-213 | the mark that settling these seqs would allow; nothing changes |
| `EventRouter.Router.SettleSeqs` | internal/app/router.go:217-244 | the seqs leave the in-flight set and the confirmed mark rises to what the rest allows |
| `EventRouter.Router.Accept` | internal/app/router.go:156-172 | true exactly when the queue had room, the event then being registered and last in the queue; otherwise it is registered and settled again |
| `EventRouter.Router.Defer1` | internal/app/router.go:300-305 | the event joins the deferred list unless that is full |
| `EventRouter.Router.FailedFlush` | internal/app/router.go:308-318 | the delay starts at one second, doubles and stops at thirty; the next retry is that far away |
| `EventRouter.Router.TakeDeferredEvents` | internal/app/router.go:322-335 | due events move to the batch in order, as many as it has room for |
| `EventRouter.Router.RouteBatch` | internal/app/router.go:342-365 | the batch is emptied: the routable in order with their rows, the others deferred |
| `EventRouter.Router.DeferRouted` | internal/app/router.go:379-381 | events of a failed write are deferred in order, as far as there is room |
| `EventRouter.Router.Flush` | internal/app/router.go:338-394 | one whole flush: on success the rows, the mark and the settled set; on failure the deferred events and the delay, with nothing settled |
| `EventRouter.Router.Receive` | internal/app/router.go:262-266 | one event moves from queue to batch; a full batch is flushed at once |
| `EventRouter.Router.Tick` | internal/app/router.go:268-271 | one tick: due events join the batch, which is then flushed |
| `EventRouter.Router.Drain` | internal/app/router.go:278-291 | ends, whatever the writes do, with queue and batch empty, after the flushes that a drain of that queue makes |
| `EventRouter.ReplayUnrouted` | internal/app/router.go:479-527 | terminates; whatever the configuration answers at each attempt, each journalled event between the old and the new mark gets one of its answers, and the outbox gains exactly the rows of these; a completed replay leaves nothing above the mark, one stopped by an unroutable event leaves the mark below it |
| `EventRouter.EventsAfterIsNextBatch` | pkg/storage/watermark.go:132-174 | reading above a mark gives the next events in ascending order up to the limit, so an empty answer means none is left |
| `BreachRuns.EventsAreExactlyTheIncidents` | pkg/monitor/breach.go:154-213 | over any run of samples of any series, the last sample opens an incident if and only if it is the first of its episode to have held long enough, and resolves one if and only if it is back inside after a raised episode; both carry the id the episode began with, and there is no other event |
| `BreachBands.IncidentsOnTheReadings` | pkg/monitor/breach.go:99-210 | on the readings of a series alone, over any run: the last one opens an incident on a side if and only if it is the first of an unbroken stretch strictly beyond that side's limit, of a band that alerts, to come the asked-for seconds after the stretch began, and the event names that limit and value; it resolves one if and only if it has a value that is not beyond a limit of a band that alerts and ends a stretch that had lasted; nothing else is recorded |
| `BreachBands.EpisodesOnTheReadings` | pkg/monitor/breach.go:160-192 | an episode is kept for a series if and only if its readings end in a stretch beyond one side's limit, and it is that stretch's: side, start to the second, whether it lasted |
| `BreachBands.RaisedWhen` | pkg/monitor/breach.go:194-210 | a raised episode keeps, to the second, the time of the reading that raised it |
| `BreachBands.KeysTellSeriesApart` | pkg/monitor/breach.go:91-93 | two readings share an episode key exactly when session, target and OID are the same, as long as no session or OID holds the separator |
| `BreachBands.ReadingsAreOneSeries` | pkg/monitor/breach.go:156-158 | so the readings kept under a key are those of one OID of one target in one session |
| `BreachRuns.EpisodesAreTracked` | pkg/monitor/breach.go:160-210 | after any run the episode kept for a series is the stretch of samples that ends its history: its side, its start to the second, its id, and whether it was raised |
| `BreachRuns.OpenedOnce` | pkg/monitor/breach.go:194-210 | an episode opens at most one incident |
| `BreachRuns.ResolvedWasOpened` | pkg/monitor/breach.go:160-170 | a resolution closes an incident that was opened, with no event of the series in between |
| `BreachRuns.ReopenedOnlyAfterAnEnd` | pkg/monitor/breach.go:160-192 | between two openings of a series the first was resolved, or a sample flipped side or could not be read |
| `BreachRuns.OpenedMeansHeld` | pkg/monitor/breach.go:198-209 | every sample from the start of the episode to the opening was outside on the same side, for more than ForSeconds less the one second lost in storing the start |
| `BreachRuns.IdsIncrease` | pkg/monitor/breach.go:178-192 | episodes of a series carry different ids, later ones greater |
| `BreachRuns.OpenIdsAreDistinct` | pkg/monitor/breach.go:178-192 | two open episodes never share an id |
| `BreachRuns.RestartsAreInvisible` | internal/app/app.go:1200-1238 | restoring a fresh evaluator from what is saved, after any sample and any number of times, yields the same threshold events and episodes as never stopping |
| `BreachRuns.RestoreRebuilds` | pkg/monitor/breach.go:79-89 | restoring every saved row, in any order, rebuilds exactly the saved episodes |
| `BreachRuns.PollIsItsSamples` | pkg/monitor/breach.go:154-210 | one poll is its samples taken one after the other |
| `BreachRuns.RunsAgree` | pkg/monitor/breach.go:154-210 | the run the incidents are told from is the run restarts are dropped from |
| `Breach.Evaluator.constructor` | pkg/monitor/breach.go:68-77 | a new evaluator knows no episode and no target that is down, over what is already saved and recorded |
| `Breach.Evaluator.Restore` | pkg/monitor/breach.go:81-89 | each record becomes the episode of its key, the last one standing |
| `Breach.Evaluator.CountTargets` | pkg/monitor/breach.go:130-138 | per target, all its samples failed exactly when as many failed as there are |
| `Breach.Evaluator.Ingest` | pkg/monitor/breach.go:115-213 | one poll: first one reachability event per target that changed, then the threshold events of its samples in order; episodes and saved store end as the samples decide |
| `Breach.Evaluator.ReportReachability` | pkg/monitor/breach.go:126-152 | in any order of the targets, exactly one event for each that went silent or answered again, and the down set follows |
| `Breach.Evaluator.IngestSample` | pkg/monitor/breach.go:155-210 | one sample: the episode started, kept, raised or ended, its saved row, and the event if any |
| `Breach.OneTarget` | pkg/monitor/breach.go:139-152 | handling one more target adds its transition to the report, or nothing |
| `BreachReach.DownExactly` | pkg/monitor/breach.go:126-152 | over any polls of any sessions, a target is held to be down exactly when the last poll that asked for it brought no value without an error |
| `BreachReach.ReachEventsExactly` | pkg/monitor/breach.go:139-152 | one poll reports, once each, exactly the targets that were not down and now did not answer, and those that were and now did |
| `BreachReach.ReachKeysTellTargetsApart` | pkg/monitor/breach.go:95-97 | two targets share a reachability key exactly when they are the same target of the same session, as long as no session holds the separator |
| `Breach.ReachKeyIsInjective` | pkg/monitor/breach.go:95-97 | two targets of a session never share a reachability key |
| `IndexRoundTrip.EncodedIndexReadsBack` | pkg/mib/table.go:485-517 | for every INDEX, IMPLIED on at most the last object, and every values encoding accepts: decoding the dotted result gives each payload back with nothing left over, if and only if no length written exceeds MaxInt32 (encoding guards lengths at 2^32-1, decoding at 2^31-1) |
| `IndexRoundTrip.LongTextIsNotReadBack` | pkg/mib/table.go:588-607 | a text of more than 2^31-1 and at most 2^32-1 letters encodes without error, and what it encodes to does not decode |
| `IndexRoundTrip.FrameReadsBack` | pkg/mib/table.go:588-607 | what is written for one object, in front of anything, is read back as that object, using up exactly what was written |
| `IndexRoundTrip.DottedReadsBack` | pkg/mib/table.go:417-432 | the dotted text of sub-identifiers parses back to them |
| `IndexRoundTrip.DecodedInstanceReframes` | pkg/mib/table.go:232-260 | an instance that decodes without error re-frames to exactly the sub-identifiers it came from |
| `IndexRoundTrip.DecodingIsInjective` | pkg/mib/table.go:232-260 | no two rows decode to the same values without error |
| `IndexLayout.EncodeIndexLaysOut` | pkg/mib/table.go:485-607 | for every row, a text is the answer if and only if it is the dotted layout of what the values stand for: a number alone, an address as its four octets, a string of one exact size as that many octets, an IMPLIED last object as it is, any other string or identifier behind its length, no length above 2^32-1 |
| `IndexLayout.DecodeInstanceAcceptsLayouts` | pkg/mib/table.go:232-356 | for every row, an instance decodes without error if and only if it is the layout of some payloads, strings holding octets, no length above 2^31-1 and the last object not empty; its parts are then exactly these payloads |
| `IndexLayout.AddressesHaveNoLength` | pkg/mib/table.go:479-484 | an address is typed as its four numbers and no length, and read back as them |
| `IndexLayout.LabelsStandForTheirValues` | pkg/mib/table.go:519-549 | a label is typed for its value in thirty-two bits; what is no label is a number or refused |
| `IndexLayout.ValuesAreShownWithTheirLabel` | pkg/mib/table.go:273-287 | an enumerated value is shown as its label with the number behind it |
| `IndexLayout.OctetsShown` | pkg/mib/table.go:393-415 | octets are shown as text exactly when there are some and all lie between the blank and the tilde, and otherwise as lower-case hex pairs between colons |
| `IndexLayout.TypedHexIsRead` | pkg/mib/table.go:664-698 | two or more pairs of hex digits in either case, between colons or between hyphens, are the octets they spell |
| `IndexLayout.OuterBlanksGo` | pkg/mib/table.go:503-509 | blanks around a value do not count |
| `IndexLayout.InstanceMayStartWithADot` | pkg/mib/table.go:417-432 | an instance reads alike with blanks around it and a dot before it |
| `IndexText.HexReadsBack` | pkg/mib/table.go:671-698 | the hex pairs shown for two or more octets that are not plain text parse back to those octets |
| `IndexText.OctetsRereadExactly` | pkg/mib/table.go:396-415 | text shown for octets encodes back to them if and only if it is printable without outer blanks or the shape of hex pairs, or unprintable with at least two octets |
| `IndexText.AddressRereads` | pkg/mib/table.go:609-623 | an address shown as a dotted quad encodes back to its four octets |
| `IndexText.IdentifierRereads` | pkg/mib/table.go:519-584 | an object identifier shown encodes back to itself |
| `IndexText.NumberRereads` | pkg/mib/table.go:519-584 | so does every number of 32 bits |
| `IndexText.ShownRowReencodesExactly` | pkg/mib/table.go:485-584 | typing back the texts a decoded row shows addresses that row if and only if each of its values rereads |
| `IndexLoops.ReadSubIds` | pkg/mib/table.go:417-432 | the loop over the dotted fields accepts and reads exactly what the definition does, an error for any bad field |
| `IndexLoops.ReadHexOctets` | pkg/mib/table.go:671-698 | the loop over the pairs: octets when every group is two hex digits, nothing otherwise |
| `IndexLoops.ReadOctets` | pkg/mib/table.go:315-327 | the octets of one value, or an error at the first sub-identifier above 255 |
| `IndexLoops.DecodeSubIds` | pkg/mib/table.go:232-260 | the loop with a position: the objects decoded before an error are kept, and leftovers are an error |
| `IndexLoops.Decode` | pkg/mib/table.go:232-260 | the whole decoding of a dotted instance, its errors included |
| `IndexLoops.Encode` | pkg/mib/table.go:485-517 | one value per object, trimmed, framed and joined, or the first error |
| `TemplateMeaning.ValidTemplatesRenderTheirMeaning` | pkg/notify/template.go:423-479 | every source the validator passes scans to balanced, un-nested blocks of known names, and renders, for every event and every escaper, to the meaning of that tree: literals, an escaped value or its fallback, a section body if and only if its variable has a value |
| `TemplateMeaning.RenderIsMeaning` | pkg/notify/template.go:423-479 | on balanced tokens the walk with two registers computes the tree's meaning, whatever a skipped section left in the second register |
| `TemplateMeaning.CheckedIsBalanced` | pkg/notify/template.go:730-830 | the validator, which scans on its own, and the scanner cut a valid source at the same tags, into balanced blocks |
| `TemplateMeaning.UsableNamesResolve` | pkg/notify/template.go:596-669 | every name the validator accepts resolves in the renderer, for every event |
| `TemplateMeaning.OwnLinesKeepShape` | pkg/notify/template.go:285-304 | the own-line pass changes literal text and marks only: kinds, names and fallbacks stay |
| `TemplateText.ItemsScan` | pkg/notify/template.go:173-256 | writing any tree of text, tags, defaults and sections down and scanning it gives one token for each |
| `TemplateText.TokensAreTheTree` | pkg/notify/template.go:177-216 | and these tokens are that tree: parsing undoes printing |
| `TemplateText.WrittenTemplatesAreValid` | pkg/notify/template.go:730-830 | every such tree within 8192 bytes is accepted by the validator |
| `TemplateText.WrittenTemplatesRender` | pkg/notify/template.go:423-479 | and renders to its own meaning for every lookup and escaper, where no section tag has a line to itself |
| `TemplateText.TagsPrintTheirValue` | pkg/notify/template.go:596-669 | for every name that may be used, {{name}} prints its value, escaped: the field of that name, a parameter or nothing, or two braces for lb |
| `TemplateText.DefaultsPrintExactlyWhenEmpty` | pkg/notify/template.go:235-252 | a tag with a default prints the default as it stands when there is no value, and otherwise the value, escaped |
| `TemplateText.SectionsShowExactlyWhenSet` | pkg/notify/template.go:456-476 | {{#name}}body{{/name}} prints the body exactly when there is a value |
| `TemplateNames.BlanksInsideDoNotCount` | pkg/notify/template.go:220-256 | blanks inside the braces do not count |
| `TemplateNames.NameableExactly` | pkg/notify/template.go:258-281 | what may be named: the vocabulary, and parameters of one to sixty-four letters, digits and underscores that are not a credential's in any case of letters |
| `TemplateNames.TheVocabulary` | pkg/notify/template.go:101-127 | the vocabulary is these twenty-two names and no others |
| `TemplateNames.CredentialsAreNeverPrinted` | pkg/notify/template.go:87-95 | no template whatever, valid or not, prints anything that depends on a parameter named like a credential |
| `TemplateChecks.ScanLosesNothing` | pkg/notify/template.go:173-216 | for every source, the texts of its tokens are the source |
| `TemplateChecks.NothingKnownPrintsTheSource` | pkg/notify/template.go:440-449 | a template of which no name is known prints itself: a misspelt tag is shown, not blanked |
| `TemplateChecks.AcceptedExactly` | pkg/notify/template.go:730-830 | a source is accepted if and only if it is empty, or within 8192 bytes with its blocks balanced and not nested, names that may be used, and no opening braces left in any text or default |
| `TemplateOwnLine.OwnLinesExactly` | pkg/notify/template.go:285-360 | the in-place pass, token by token: which tags it marks, which literals lose the start of their first line and which the end of their last |
| `TemplateOwnLine.EveryLoneLineRemovedExactly` | pkg/notify/template.go:282-304 | the line of every tag alone on its line is removed if and only if no such tag stands on the line right after another |
| `TemplateOwnLine.LoneTagAfterLoneTag` | pkg/notify/template.go:282-304 | an empty section over two lines is such a case: its closing line stays behind as an empty line |
| `TemplateOwnLine.TwoLineSectionScans` | pkg/notify/template.go:177-218 | the text of an empty section over two lines, for any variable name, scans to exactly those tokens |
| `TemplateOwnLine.TwoLineSectionKeepsALine` | pkg/notify/template.go:282-304 | so for every name the validator accepts, severity being one, that text is a valid template and keeps the line of its closing tag, empty |
| `TemplateLines.OwnLineSectionsLeaveNoLine` | pkg/notify/template.go:282-304 | a section whose two tags stand on lines of their own, indented or not, leaves no line behind: the lines between are printed when there is a value, and otherwise nothing is |
| `TemplateLines.OwnLineText` | pkg/notify/template.go:282-304 | and this is the text one types for it |
| `TemplateLines.BlankBeforeExactly` | pkg/notify/template.go:306-325 | what stands before a tag on its line, back to a line break or the start of the source, is blank or not |
| `TemplateLines.BlankAfterExactly` | pkg/notify/template.go:327-349 | and behind it, up to a line break or the end |
| `TemplateOwnLine.ValidTemplatesHoldNoLiteralTag` | pkg/notify/template.go:730-830 | literal text of a valid template holds no opening braces, so no tag is ever emitted verbatim |
| `TemplateLoops.ScanTokens` | pkg/notify/template.go:177-218 | the scanning loop yields the tokens of its source and never fails |
| `TemplateLoops.ApplyOwnLine` | pkg/notify/template.go:285-304 | the pass over the token array, in place, leaves what the pass is defined to leave |
| `TemplateLoops.RenderTokens` | pkg/notify/template.go:423-479 | the rendering loop is the flat renderer |
| `TemplateLoops.RenderTemplateText` | pkg/notify/template.go:423-479 | scan, own-line pass and rendering together |
| `TemplateLoops.Validate` | pkg/notify/template.go:730-830 | every problem of a source in order, none exactly when it is valid |
| `CycleSearch.CyclesIn` | pkg/mib/cycle.go:133-183 | terminates; reports nothing if and only if the graph of known modules has no closed walk; each report is a real closed path that repeats only its first module; with no separator in a name, every closed walk meets a reported loop; and what is reported is the search from each module in ascending order |
| `CycleSearch.ReportsTellCycles` | pkg/mib/cycle.go:133-183 | the same of the search as a function |
| `CycleSearch.SameModulesSameReports` | pkg/mib/cycle.go:176-182 | the same graph always gives the same reports: there is one ascending listing |
| `CycleSearch.NotEveryCycleIsReported` | pkg/mib/cycle.go:129-133 | of the two loops A, B, C, A and A, C, A only the first is reported, although the comment speaks of every cycle |
| `CycleReports.EveryLoopIsReportedExactly` | pkg/mib/cycle.go:129-183 | for every graph in which no name holds the separator: the modules of every loop are those of some report if and only if no import between two modules that reach each other is passed over, each being descended along or leading back to a module on the way to the importer; loops are told apart by their modules, as the code tells them |
| `CycleReports.OnePathEachWayIsEnough` | pkg/mib/cycle.go:129-183 | a condition on the graph alone: if modules that reach each other have one simple path each way, every loop is reported, in whatever order the imports are listed |
| `CycleOnce.NoLoopIsReportedTwice` | pkg/mib/cycle.go:163-168 | no two reports name the same modules, the one they return to twice |
| `CycleReports.CommonAncestor` | pkg/mib/cycle.go:143-174 | two modules that reach each other were both met below one module of their component |
| `CycleTree.LoopsAreStretches` | pkg/mib/cycle.go:154-162 | where no import inside a component is passed over, every loop has the modules of one stretch of one path, closed by one import |
| `CycleTree.PassedOverIsMissed` | pkg/mib/cycle.go:150-154 | an import passed over inside a component closes a loop that is no such stretch |
| `CycleOrder.SearchIsOrdered` | pkg/mib/cycle.go:143-183 | the search keeps this: the paths form a tree; a module met before another was finished is above it or was finished before it; every report is a closed stretch of one path; every import of a finished module names one met before that, and the loop it closes, if any, is reported |
| `Cycle.WalkIsSound` | pkg/mib/cycle.go:144-174 | the inner walk keeps the path, the colours and the reports right, and finishes its module |
| `Cycle.VisitFromIsSound` | pkg/mib/cycle.go:148-170 | after the imports of a module each known one is finished or was reported for |
| `Cycle.SearchIsSound` | pkg/mib/cycle.go:176-182 | the outer loop leaves every known module coloured and the state right |
| `Cycle.EveryCycleIsCovered` | pkg/mib/cycle.go:133-183 | once all is finished, every closed walk passes through a module something was reported for |
| `Cycle.RankFallsAlong` | pkg/mib/cycle.go:133-183 | along imports nothing was reported for, modules were finished in strictly falling order |
| `Cycle.FinishedSearch` | pkg/mib/cycle.go:133-183 | so a finished search that reported nothing proves the graph acyclic |
| `Cycle.ReportingIsSound` | pkg/mib/cycle.go:154-168 | the stack from a module met again is a loop, and it or one over the same modules is reported |
| `Cycle.SameKeySameModules` | pkg/mib/cycle.go:164-167 | two loops with one deduplication key have the same modules, when no name holds the separator |
| `Cycle.EnteringIsSound` | pkg/mib/cycle.go:144-147 | pushing a new module keeps the stack a path without repeats |
| `Cycle.LeavingIsSound` | pkg/mib/cycle.go:172-174 | finishing the top module keeps everything right once its imports are handled |
| `CycleSearch.Search.Report` | pkg/mib/cycle.go:154-168 | one more loop unless its key was seen |
| `CycleSearch.Search.Visit` | pkg/mib/cycle.go:148-170 | one import: descended into, reported, or passed over |
| `CycleSearch.Search.Walk` | pkg/mib/cycle.go:143-174 | the recursive walk does what the search is defined to do, and terminates |
| `CycleSearch.Search.WalkAll` | pkg/mib/cycle.go:176-182 | each module in turn unless met before |
| `CycleSearch.KeysOf` | pkg/mib/cycle.go:185-191 | every module once, in some order |
| `PresetCost.ExpansionStaysBounded` | pkg/preset/preset.go:340-413 | for every preset the count rules pass and everything a walk may find, expansion keeps each widget within its kind's maximum and the preset within 500 OIDs |
| `PresetCost.LimitFitsTheKind` | pkg/preset/discover.go:80-111 | a discovering widget that passes may take at least one instance, and limit times templates plus fixed OIDs never exceeds its kind's room |
| `PresetCost.LimitIsTheLargest` | pkg/preset/discover.go:64-111 | and it is the largest: it is the bound on the walk, declared or 128, or one more instance would not fit what the kind can draw |
| `PresetCost.AcceptedExactly` | pkg/preset/preset.go:340-413 | a preset passes the count rules if and only if it has one to forty widgets, each of a known kind with one OID to as many as it can show and a placeholder exactly where it discovers, within five hundred readings in all |
| `PresetInstances.EveryPlaceholderIsReplaced` | pkg/preset/discover.go:137-146 | every placeholder of a template becomes the suffix and nothing else changes, whatever stands around it |
| `PresetInstances.NoPlaceholderIsLeft` | pkg/preset/discover.go:137-146 | with a suffix of digits and dots no template is left |
| `PresetInstances.AnEmptySuffixCanLeaveATemplate` | pkg/preset/discover.go:137-146 | an empty suffix could leave one, and no walk gives one |
| `PresetInstances.InstancesAreDistinct` | pkg/preset/discover.go:137-146 | different suffixes of one template give different OIDs |
| `PresetInstances.PlacesOfTemplates` | pkg/preset/discover.go:108-148 | instance by instance: a template stands, at each instance taken, behind all templates of the instances before |
| `PresetInstances.PlacesOfFixed` | pkg/preset/discover.go:150-156 | fixed OIDs stand behind all instances, in order, and there is nothing else |
| `PresetInstances.NothingIsLeftToDiscover` | pkg/preset/discover.go:164-176 | an expanded preset holds addresses only |
| `PresetInstances.InstancesFrom` | pkg/preset/discover.go:201-223 | the rows a walk answered, in its order; an answer outside the column is no row |
| `PresetInstances.WalkedRowsArePolled` | pkg/preset/discover.go:201-223 | the template of a column at the instances its walk gave is exactly the OIDs that were walked, in their order |
| `PresetCost.CostIsAnUpperBound` | pkg/preset/preset.go:471-522 | for every preset, valid or not, and everything a walk may find, the OIDs polled after expansion are at most those stated beforehand, and the readings with a band at most the stated watched ones |
| `PresetCost.CostIsExactWithoutDiscovery` | pkg/preset/preset.go:471-522 | without templates or empty OIDs both figures are exact |
| `PresetCost.CostInClosedForm` | pkg/preset/preset.go:480-515 | the figure the loop accumulates is the number of distinct keys plus the instances stood for |
| `PresetCost.PolledAreKeys` | pkg/preset/preset.go:526-547 | polling lists no OID twice, and exactly the normalised OIDs that are not templates |
| `PresetBands.NoConflictExactly` | pkg/preset/threshold.go:157-194 | no conflict is reported if and only if any two bands on one reading say the same |
| `PresetBands.WidgetsAgreeExactly` | pkg/preset/threshold.go:157-194 | the same said of the widgets of a preset |
| `PresetBands.ThresholdsIgnoreOrder` | pkg/preset/threshold.go:101-118 | without conflicts the threshold map has the same readings and equal bands for any order of the widgets |
| `PresetBands.AlertingIsExact` | pkg/preset/preset.go:480-515 | without discovery or conflicts, the readings said to alert, decided by the first widget, are as many as the map entries that alert, decided by the last |
| `PresetBands.MapsHoldClaims` | pkg/preset/threshold.go:101-118 | first and last band of a reading are both claimed by a widget, and no claimed reading is missed |
| `PresetBands.PolledExactly` | pkg/preset/preset.go:526-547 | what is polled is each OID some widget names, less a leading dot, each once |
| `PresetBands.PolledInOrder` | pkg/preset/preset.go:526-547 | in the order in which they are named for the first time |
| `PresetBands.LastBandStands` | pkg/preset/threshold.go:101-118 | the last widget to give a reading a band decides it |
| `PresetBands.ConflictsExactly` | pkg/preset/threshold.go:157-194 | each reading on which bands differ has exactly one conflict, which names the widget that first says otherwise and, counted from one, the one that spoke first |
| `PresetLoops.PollOIDs` | pkg/preset/preset.go:526-547 | the nested loop with its seen set polls each key once, in order of first appearance |
| `PresetLoops.ThresholdsFor` | pkg/preset/threshold.go:101-118 | the nested loop: the last widget to name an OID decides its band |
| `PresetLoops.CheckThresholdConflicts` | pkg/preset/threshold.go:157-194 | the nested loop: one conflict per OID, where a widget first disagrees with the first claim |
| `PresetLoops.EstimateOne` | pkg/preset/preset.go:489-513 | what one OID adds to the figures and which keys are marked |
| `PresetLoops.Estimate` | pkg/preset/preset.go:471-522 | all figures, and polls and readings a day, zero for an interval that is not positive |
| `PresetLoops.CountTemplates` | pkg/preset/discover.go:89-97 | how many OIDs carry the placeholder |
| `PresetLoops.DiscoverInstanceLimit` | pkg/preset/discover.go:80-111 | the instance limit, with its early exits and its cut to the kind's room |
| `PresetLoops.ExpandInstance` | pkg/preset/discover.go:138-147 | every template for one instance |
| `PresetLoops.ExpandInstances` | pkg/preset/discover.go:137-148 | instance by instance |
| `PresetLoops.FixedOids` | pkg/preset/discover.go:150-156 | the OIDs that carry no placeholder, in order |
| `PresetLoops.ExpandOne` | pkg/preset/discover.go:124-162 | one widget with what its walk found, cut at the limit |
| `PresetLoops.ExpandAll` | pkg/preset/discover.go:169-176 | every widget with its own walk |
| `PresetLoops.ValidateCounts` | pkg/preset/preset.go:340-413 | every count problem of a preset, in order |
| `OverrunRuns.ReportsExactly` | pkg/monitor/overrun.go:120-154 | a departure is reported exactly when the guard was at rest and this is the third slow round with no fitting one between; a recovery exactly when it was engaged and this is the third round within half the interval since the last slow one |
| `OverrunRuns.UnansweredMovesNothing` | pkg/monitor/overrun.go:90-95 | a round in which nothing was read, or of which half or more failed, moves nothing and reports nothing |
| `OverrunRuns.ReportsAlternate` | pkg/monitor/overrun.go:120-154 | over any rounds and accepts the reports alternate departure, recovery, departure |
| `OverrunRuns.CountersAreStreaks` | pkg/monitor/overrun.go:120-154 | the two counters hold exactly those streaks, rounds without evidence aside |
| `OverrunRuns.PeriodExactly` | pkg/monitor/overrun.go:120-178 | the effective period is the interval unless engaged and not accepted; then it is twice the worst slow round since engaging, clamped |
| `OverrunRuns.PeriodStaysInRange` | pkg/monitor/overrun.go:166-178 | the period never leaves the range from one interval to eight |
| `Overrun.OverrunGuard.constructor` | pkg/monitor/overrun.go:109-111 | a new guard polls at the interval, at rest |
| `Overrun.OverrunGuard.ObserveRound` | pkg/monitor/overrun.go:120-154 | one round: counters, engagement, period and report |
| `CounterRuns.NeverAWrongNumber` | pkg/monitor/scheduler.go:326-362 | for a Counter32 whose total advances by less than 2^32 between polls, a delta is the true advance or a gap, and which of the two is decided; a poll after a missed one has none |
| `CounterRuns.UnbrokenStretchSumsUp` | pkg/monitor/counters.go:46-62 | when every advance is below 2^31, an unbroken stretch has no gap and its deltas sum to the advance of the whole stretch |
| `CounterRuns.DeltaExactly` | pkg/monitor/counters.go:46-62 | one delta: exact, a gap, or off by whole moduli, each exactly when |
| `CounterRuns.SeriesAreApart` | pkg/monitor/scheduler.go:326-362 | what a round leaves for a series depends on that series' readings alone |
| `CounterRuns.RoundsHoldTheSeries` | pkg/monitor/scheduler.go:326-362 | a session polling a series once a round holds exactly its last answered sample, none after a miss |
| `CounterRuns.PointIsTheSeriesDelta` | pkg/monitor/scheduler.go:345-362 | the point of a reading carries the delta of its series, whatever else the session polls |
| `CounterRuns.Counter32Wraps` | pkg/monitor/counters.go:19-34 | the type an agent calls Counter32 is a counter that wraps at 2^32 |
| `CounterRuns.NothingElseWraps` | pkg/monitor/counters.go:17-23 | gauges, integers, ticks and a missing type are no counters |
| `CounterRuns.GaugesMayFall` | pkg/monitor/counters.go:46-53 | what is no counter may fall, and its delta is the difference |
| `CounterRuns.CountersNeverFall` | pkg/monitor/counters.go:46-62 | a counter is never said to fall |
| `CounterRuns.TypeIsRememberedOnce` | pkg/monitor/scheduler.go:342-357 | a type that a reading does not name is that of the reading before, once: the next fall of a counter without a type is taken for a gauge's |
| `CounterRuns.KeysTellReadingsApart` | pkg/monitor/scheduler.go:336 | readings are of one series exactly when target and OID are the same, as long as no OID holds the separator |
| `CounterRuns.FailuresAreErrors` | pkg/monitor/scheduler.go:325-334 | a round failed as often as a reading came with an error; a reading without a number is no failure |
| `Counters.Clock.constructor` | pkg/monitor/scheduler.go:189-194 | a session starts with no sample kept |
| `Counters.Clock.Tick` | pkg/monitor/scheduler.go:303-368 | one round: a point and a count for each reading and the last samples kept; a cancelled round keeps and counts nothing |
| `RouteScan.SelectedExactly` | pkg/notify/route.go:301-333 | a sink is selected if and only if a matching enabled route lists it and no matching stop rule comes earlier by priority, id and listing; each is named once |
| `RouteFields.SelectedOnFields` | pkg/notify/route.go:301-332 | on the fields of the rules alone: a destination is named, once, if and only if an enabled matching rule lists it and no enabled matching rule that stops has a lower priority number, on a tie a lower id in byte order, on a tie an earlier place |
| `RouteScan.WantedExactly` | pkg/notify/route.go:316-332 | a sink is met in the scan exactly when a route before the first matching stop rule, or that rule, lists it |
| `RouteOrder.SinksComeInPriorityOrder` | pkg/notify/route.go:299-333 | the sinks come in the order of the first route reached that asks for each |
| `RouteOrder.ListingMattersOnlyWithinAKey` | pkg/notify/route.go:301-314 | two listings are evaluated alike if and only if they agree on the routes under every priority and id |
| `RouteOrder.ListingDoesNotMatter` | pkg/notify/route.go:301-333 | with no two routes on one key the answer does not depend on the listing |
| `RouteOrder.TiedRoutesKeepTheirListing` | pkg/notify/route.go:301-333 | with two on one key it can: two tied stop rules answer by their listing |
| `RouteOrder.SortIsStable` | pkg/notify/route.go:304-314 | the sort keeps routes under one key as listed |
| `RouteSelect.PlacesAreTheEvaluationOrder` | pkg/notify/route.go:304-314 | the sort puts every route exactly once, by priority, then id, then as listed |
| `RouteSelect.MoveLeft` | pkg/notify/route.go:307-313 | the inner loop, in place: an entry moves left past exactly the routes it must precede |
| `RouteSelect.SortRoutes` | pkg/notify/route.go:306-314 | the insertion sort, in place |
| `RouteScan.TakeSinks` | pkg/notify/route.go:321-326 | the sinks of one route, each unless already chosen |
| `RouteScan.Scan` | pkg/notify/route.go:316-332 | the scan over sorted routes up to the first matching stop rule |
| `RouteScan.Select` | pkg/notify/route.go:301-333 | a sorted copy, scanned |
| `RoutePrefix.PrefixIsBySubIdentifier` | pkg/notify/route.go:217-224 | the text test accepts exactly the OIDs whose sub-identifiers begin with the rule's |
| `RouteDelivery.GroupsNameEachDestinationOnce` | internal/app/app.go:963-1076 | a destination is in a group if and only if Select chooses it, it is configured and enabled, and it is not the one the dead letter is about; it is in one group, once |
| `RouteFields.GroupsOnFields` | internal/app/app.go:963-1076 | on the fields alone: the groups name a destination, once, if and only if some rule does, the last row configured under its id is enabled, and the event does not announce that a delivery to it was given up |
| `RouteDelivery.EveryDestinationIsNamed` | internal/app/app.go:1034-1067 | every live destination is in a group and nothing else is |
| `RouteDelivery.NoDestinationIsNamedTwice` | internal/app/app.go:1034-1067 | no destination is named twice, in one group or across groups |
| `RouteDelivery.EveryDestinationGetsItsRendering` | internal/app/app.go:1051-1067 | each destination gets its own rendering of the event, masked before rendering when it asks for it |
| `RouteDelivery.DestinationsExactly` | internal/app/app.go:984-1004 | what is left of the selected sinks once the failing one is dropped, in order and without repeats |
| `RouteDelivery.DeadLettersDoNotReturn` | internal/app/app.go:910-959 | the event announcing a given-up delivery is never sent to the sink that failed |
| `RouteDelivery.ConfigIsTheLastRow` | internal/app/app.go:1016-1019 | the configuration of an id is its last row |
| `RouteDelivery.GroupMapIs` | internal/app/app.go:1032-1067 | a group holds exactly the live destinations with its rendering, in order |
| `RouteGroups.DropFailing` | internal/app/app.go:996-1004 | the filter over the front of the slice it reads keeps all but the failing sink, in order |
| `RouteGroups.ConfigBySink` | internal/app/app.go:1016-1019 | the map from id to configuration, the last row standing |
| `RouteGroups.Gather` | internal/app/app.go:1032-1067 | the groups by rendering, as the loop over the sinks fills them |
| `RouteGroups.ListGroups` | internal/app/app.go:1069-1075 | ranging over the map lists every group once, in no set order |
| `RouteGroups.RoutedGroupsFor` | internal/app/app.go:963-1076 | an error exactly when the rules cannot be read, or the destinations cannot and some are needed; no groups when nothing is left; otherwise one group per rendering |
| `DispatchRuns.ADrainIsSerial` | pkg/notify/dispatcher.go:135-195 | for every interleaving of the workers' sends, row writes and reports, a drain that ends without shutdown reports each due delivery exactly once, in queue order within a destination, and leaves the outbox that serving them one by one leaves |
| `DispatchRuns.EveryRunServesInOrder` | pkg/notify/dispatcher.go:174-195 | at any moment of any run, shutdown or not, what a destination was sent, had written and had reported are prefixes of its queue, at most one delivery is in flight there, and the outbox shows exactly the written ones |
| `DispatchRuns.EveryDrainEnds` | pkg/notify/dispatcher.go:174-195 | a drain takes at most three steps a delivery, and one that can take none has served everything |
| `DispatchRuns.StepKeepsInv` | pkg/notify/dispatcher.go:174-243 | every step of every worker, and shutdown, keep that account |
| `Dispatch.InterleavingDoesNotMatter` | pkg/notify/dispatcher.go:150-195 | two orders that agree within each destination leave the same outbox |
| `Dispatch.SameIsDistinct` | pkg/notify/dispatcher.go:150-195 | such an order serves each delivery of the batch exactly once |
| `Dispatch.WriteAllIsPerRow` | pkg/storage/notify_store.go:264-321 | serving deliveries changes their own rows only, each as if it were alone |
| `Dispatcher.GroupBySink` | pkg/notify/dispatcher.go:164-172 | one queue per destination holding its rows in order, destinations listed once |
| `Dispatcher.Dispatcher.constructor` | pkg/notify/dispatcher.go:58-70 | a dispatcher over an outbox, neither running nor stopped |
| `Dispatcher.Dispatcher.Fail` | pkg/notify/dispatcher.go:235-243 | the failure is recorded with the wait of the next attempt and reported |
| `Dispatcher.Dispatcher.Deliver` | pkg/notify/dispatcher.go:203-233 | a missing sink is given up at once, a success marked, a failure given up when final or at the sixth attempt; one report each |
| `Dispatcher.Dispatcher.RunWorkers` | pkg/notify/dispatcher.go:174-195 | any worker may be next and shutdown may come before any delivery: each destination is served in order, all of it unless shut down |
| `Dispatcher.Dispatcher.Drain` | pkg/notify/dispatcher.go:135-195 | nothing when one is running or the outbox cannot be read; otherwise each destination in order, and without shutdown the outbox of a serial drain |
| `DispatchAttempts.SixSendsAtMost` | pkg/notify/dispatcher.go:231-243 | over any history of queueing, drains, shutdowns and retries by hand in which outcomes are saved, no delivery is sent more than six times since it was queued or retried, and one is dead only after six attempts or a final failure |
| `DispatchAttempts.UnsavedIsSentAgain` | pkg/notify/dispatcher.go:221-227 | a delivery whose outcome is never saved is sent again by every drain, without bound |
| `DispatchAttempts.SixFailuresMakeADeadLetter` | pkg/notify/dispatcher.go:231-232 | a delivery that only fails transiently is dead at its sixth attempt and pending before |
| `DispatchAttempts.FateOfADelivery` | pkg/notify/dispatcher.go:203-243 | after its n-th attempt, transient failures before it, a delivery is sent when that got through, dead when its sink is gone, the failure is final or it was the sixth, and otherwise waiting |
| `DispatchAttempts.SuccessiveWaitsDouble` | pkg/notify/backoff.go:13-29 | after its first to fifth failure it waits 15, 30, 60, 120 and 240 seconds, to the second |
| `DispatchAttempts.RetriesWait` | pkg/notify/backoff.go:13-29 | a delivery that may be tried again waits at least 15 seconds and at most 15 minutes |
| `Backoff.WaitsAreBoundedExactly` | pkg/notify/backoff.go:20-29 | all waits up to attempt n lie between 15 s and 15 min if and only if n is at most 30 |
| `Backoff.WaitsGrow` | pkg/notify/backoff.go:20-29 | up to attempt 30 a later attempt never waits less |
| `Backoff.DoublesUpToTheCap` | pkg/notify/backoff.go:20-29 | from 15 s the wait doubles until it meets the cap |
| `Backoff.Attempt31Overflows` | pkg/notify/backoff.go:24-28 | at attempt 31 the 64-bit product overflows and the wait is negative |
## Left out

- RouterGuarantee.NothingAcceptedIsLost: assumes the environment's duties; for the first two the exact lemmas beside it say when they are needed, and that nothing is accepted while a replay runs is assumed. Events are named by their seq, trimming of the journal is not modelled, and an event routed inline after a full queue is outside the guarantee, as it is in the code.
- EventRouter.ReplayUnrouted: the branch of RoutedThrough for a database that was swapped or has no watermark row is not part of this model, and neither is a replay that goes on beside live routing.
- EventRouter.Router.Flush: waking the dispatcher and logging are left out; watchPool, which only reports, is left out.
- Breach.Evaluator.Ingest: saving, deleting and recording succeed, values are reals, timestamps are parsed integers; titles, summaries and parameters of events are left out.
- BreachRuns.RestartsAreInvisible: threshold events only; which targets are down is not saved by the code and is forgotten by a restart.
- IndexText.ShownRowReencodesExactly: an enumeration shown as a label with its number, like up(1), is one of the values that need not reread; the label table is the MIB library's.
- IndexLoops.Decode: TrimSpace removes the blanks of ASCII only, and the wording of errors is left out.
- TemplateMeaning.ValidTemplatesRenderTheirMeaning: the concrete escapers are a parameter, the text of each variable is a field of the event, and the clipping of a rendered subject is left out.
- TemplateLoops.Validate: the offsets that place an error message are left out.
- CycleSearch.CyclesIn: does not find every cycle, as its comment says it does, because the code passes over modules already finished; EveryLoopIsReportedExactly says when it does, and counts two loops over the same modules as one, since a report is told by its modules; the refusal of files built on it is left out.
- PresetLoops.CheckThresholdConflicts: before the final sort for display.
- PresetLoops.ValidateCounts: the count rules only; text, layout, label, map, model and OID checks are one-branch tests.
- PresetLoops.ExpandOne: the labels an instance brings are left out, here and in InstancesFrom.
- Counters.Clock.Tick: values are integers, exact for counters below 2^53; rates, persisting and evaluating a round are left out, and so is the repair of a Counter64, which the code itself rules out.
- Overrun.OverrunGuard.ObserveRound: the ticker that applies the period is left out.
- RouteScan.Select: whether a rule matches one event at its time is a parameter; of the matchers only the OID prefix is modelled.
- RouteGroups.RoutedGroupsFor: redaction and rendering are parameters, and the text key of a group is taken as the triple it spells.
- Dispatcher.Dispatcher.Drain: a dispatcher without a queue or resolver, reporting a dead letter as a new event, retention of rows, and the bounded wait at shutdown are left out; what a delivery meets does not depend on the schedule.
- DispatchAttempts.SixSendsAtMost: needs outcomes that are saved; UnsavedIsSentAgain shows why, and an application killed between a send and its row write is such a case. Which error is final is a parameter.
- Files, sockets, the database engine, the window, secrets, updates and the simulator: input and output.
- Dead letters that announce dead letters across several destinations: not finite in the code, and not claimed.
