# Models and proofs for the platform's alerting, reconciliation and deployment logic

This project models six programs of the repository and proves properties of the models:

- the **alert relay** (`Relay*.dfy`): threads taking container and host alerts through one lock, a
  daily budget with three ceilings, an in-process floor under a store that may lose or roll back
  writes, a per-container health register, a memory of what was delivered, and a state document that
  is shrunk to fit hard bounds;
- the **Configarr filters** (`Configarr*.dfy`): a declaration compiled into a quality-profile tree, a
  live readback projected to comparable form, and the PUT body that takes one to the other;
- the **deployment poller** (`Poller*.dfy`): CI verdicts, the walk back from the head of main, the
  attempted record, the forgiveness slot, the last success, and what the poller says about itself;
- **message fitting** (`Messages.dfy`, `MessageMarkup.dfy`), the **Bazarr projections and difference
  walk** (`Bazarr*.dfy`), the **Immich originals scan** (`ImmichScan.dfy`) and the **deployment
  image changes** (`DeploymentImages.dfy`).

`Options.dfy` and `Orders.dfy` hold an option type and the orders and sorting the rest uses.

Code that updates state is modelled by classes and methods whose `ensures` equate the new state with
a function of the old one; the results are then lemmas about those functions, over every input or
every run. Where the code turned out not to meet a promise, a lemma names the failing input and
another gives the exact condition under which the promise is met.

## Main results

1. **Ceilings hold under every interleaving** (`RelayThreads.TotalsHold`, `ShareHolds`). Threads are
   program counters, publish and persist may fail at any time, and a read of the store may return
   anything. In any stretch of critical sections that name one UTC day, at most the global ceiling of
   alerts and one global notice go out; a container whose counter is not evicted gets at most its own
   ceilings and one notice. `StepsCarryOut` ties the steps to the code of one section, and
   `PublishOutsideLockBreaches` shows a run over the ceiling once publishing leaves the lock. A restart
   costs one more ceiling with a broken store (`RelayRestarts.RestartsCostCeilings`), and with one that
   keeps what was written one alert if it cuts a section short, else none (`CutsCostOne`).
2. **Nothing is silenced early** (`RelayThreads.HeldBackOnlyWhenSpent`): with a store only the relay
   writes, lost writes, rolled-back reads and restarts included, whatever asks to be published goes out
   until a ceiling is really reached; and what a section sends, charges and stores is determined for
   every delivery (`RelayOutcomes.SentExactly`, `ChargedExactly`, `StoredExactly`).
3. **The repair leaves alone exactly what is declared** (`ConfigarrQuiet.QuietExactly`), and **is a
   one-step fixpoint exactly when the declaration settles** (`ConfigarrConvergence.RepairConverges`):
   after the PUT the next run has nothing to repair if and only if unmatched scores are reset, `bottom`
   leaves some quality undeclared, every declared name is the name of the quality it resolves to, and
   every grouped name still is when the definitions are read in name order. Otherwise every later run
   sends the same PUT again (`EveryRun`), and each of the four conditions fails for some declaration
   that is otherwise in order (`ConfigarrFailures`).
4. **The state document** is shrunk to the greatest part that fits in the shedding order
   (`RelayBounds.BoundedState`, `SurvivorsAre`), measured as the text that is written
   (`RelayText.SizeIsLength`), refused exactly when the unhealthy entries alone do not fit
   (`RefusedExactly`), and every state written in any run is read back unchanged
   (`RelayStore.EveryWriteReadsBack`). Sections of the same container events leave the same register
   in the store whatever their order (`RelayRegisters.DeliveryOrderIrrelevant`).
5. **Deployments move forward** (`PollerRuns.SuccessesAscend`): with ancestry any partial order and git
   free to know only part of it. An undisturbed revision is attempted at most `1 + 3` times whatever
   crashes (`AttemptBound`, `QuietRunBound`), and any revision at most four times more for each poll
   that disturbs it (`DisturbedBound`); while it keeps failing for passing reasons it is attempted
   exactly that often (`FailingUsesAll`), and again after a retry (`RetryBuysAll`).
6. **A cut message is the longest well-nested prefix** (`MessageMarkup.CutIsWellNested`), drift is
   reported exactly (`Bazarr.DriftReported`, `BazarrReading.DriftsExactly`), the scan is exact up to its
   cap (`ImmichScan.OriginalsChangedSince`), the image report is determined entry by entry
   (`DeploymentImages.ReportExactly`), and carried out on the previous images it gives the current ones
   (`ChangesRebuild`) under labels that are unique exactly when no two of the names meet
   (`LabelsUniqueExactly`).
7. **Recoveries answer alarms** exactly in the runs whose recovering polls find the alarm marker set
   (`PollerNotices.RecoveriesFollowAlarms`).

## Where the code differs from what it says

- `_configarr_definition_lookup` lets a title take over another definition's name, and the two
  materialisations read the definitions in different orders, so the two can disagree
  (`ConfigarrFailures.TakeoverHappens`) and do exactly when a grouped name does not mean itself in name
  order (`ConfigarrIdentities.IdentitiesAgree`).
- Its documentation lets a declaration use either spelling of a quality. A title is repaired on every
  run (`ConfigarrFailures.TitleHappens`), and as the first entry it is refused, because the cutoff is
  looked up among names only (`TitleFirstRaises`). The condition is that every declared name is the
  name of its quality (`ConfigarrConvergence.EnabledReadsBack`).
- A profile with unmatched scores left alone is repaired on every run
  (`ConfigarrConvergence.ResetOffNeverSettles`), and so is one sorted to the bottom that leaves no
  quality undeclared (`ConfigarrFailures.AllDeclaredHappens`).
- `fit_message` promises to leave something of every nonempty text; a blank first line with a long
  second one is sent as nothing (`Messages.SomethingBecomesNothing`, and exactly then: `FitEmpty`).
- `note_seeing_poll` promises no recovery for a blindness nobody was told of; it goes by the count,
  deliberately so for alarms an older poller sent, and one can therefore follow an alarm that was
  never delivered (`PollerNotices.RecoveryWithoutAlarm`). The promise is kept exactly when each
  delivering poll past the threshold finds the marker set, the guard the code does not consult
  (`RecoveriesFollowAlarms`).
- A version-1 state document is accepted with any number of entries
  (`RelayOverload.LongDocumentAccepted`), while the bounds admit 128. With 130 or more every section
  is dropped or refused, so nothing is published and nothing replaces the document; with 129 only a
  recovery of one of them acts (`LegacyDocumentSilences`, `LegacySections`).
- Two images can share a label when a name holds a slash (`DeploymentImages.SlashCollides`), and do
  exactly when their names meet (`LabelsUniqueExactly`).
- A dotted key prints like a key under a key (`BazarrPaths.DottedKeyShares`, `LineTwice`); nothing
  else makes two paths print alike (`SharedLines`).

## Model

| member | source | states |
|---|---|---|
| RelayModel.RaisedIsLeastUpperBound | services/dozzle/alert_relay.py:1510-1545 | correcting a budget by the floor gives the least budget above both, field by field and counter by counter |
| RelaySections.BudgetFloor.RaiseFloor | services/dozzle/alert_relay.py:1524-1545 | the loop over the floor's counters computes that join, and leaves a budget of another day alone |
| RelaySections.BudgetFloor.Record | services/dozzle/alert_relay.py:1547-1561 | from then on whatever budget of that day a section reads is corrected to one that is no lower than the charged budget nor than what was read; budgets of other days stay as read |
| RelaySections.MakePlan | services/dozzle/alert_relay.py:1632-1660 | what a section decides from the store, the floor and the clock: adopted entries, transition, charge, bounded state, whether to write |
| RelayOutcomes.SentExactly | services/dozzle/alert_relay.py:1637-1658 | what a section sends for every delivery, store, floor and clock, from the recorded instants and the counts of the day alone: every out-of-memory kill, unexpected exit and host alert asks, a health event by its instant; then the global ceiling, the container's for that rule, and one notice in place of the first past either; and when an event is dropped |
| RelayOutcomes.ChargedExactly | services/dozzle/alert_relay.py:1564-1660 | what it charges, to the day and to each container, and which counters went to make room |
| RelayOutcomes.ActsExactlyWhen | services/dozzle/alert_relay.py:1637-1660 | an event that is not dropped is acted on exactly when the unhealthy entries it leaves fit beside the charged totals |
| RelayOutcomes.StoredExactly | services/dozzle/alert_relay.py:1632-1660 | what it stores: the entry the event leaves under the container's own name, the former name given up, every other entry as it was, all bounded |
| RelayOutcomes.ReplacesExactly | services/dozzle/alert_relay.py:1661-1664 | the store is rewritten exactly when it does not hold that state already |
| RelaySections.ProcessEvent | services/dozzle/alert_relay.py:1618-1688 | repeat check, plan, publish, memory, floor, persist in that order; what each failure leaves behind; the memory learns of an event only once it went out |
| RelaySections.ProcessBeszel | services/dozzle/alert_relay.py:1739-1779 | the same for a host alert, which has no container allowance and no register |
| RelayOutcomes.AcknowledgedExactly | services/dozzle/alert_relay.py:1661-1688 | a delivery is acknowledged only when nothing is left to do; a failed publish is the service's failure and charges nothing, a failed bound or write the store's, the latter with the message out and charged |
| RelayThreads.StepsCarryOut | services/dozzle/alert_relay.py:1661-1688 | the state machine's steps of one section, run under the lock, leave the floor, the write and the log that the section's code leaves |
| RelayThreads.RunExclusive | services/dozzle/alert_relay.py:1628-1669 | in every interleaving at most one thread is past the lock, and its decision still stands on the current floor |
| RelayThreads.TotalsHold | services/dozzle/alert_relay.py:1510-1688 | one process, any interleaving, any failures, any store: at most the global ceiling of alerts and one global notice in every stretch of sections sharing one UTC day |
| RelayRestarts.RestartsCostCeilings | services/dozzle/alert_relay.py:1510-1688 | with restarts and any store at all: every restart is worth at most one more ceiling of alerts and one more global notice a day |
| RelayRestarts.CutsCostOne | services/dozzle/alert_relay.py:1510-1688 | with a store that keeps what was written, whatever it held at first: one alert and one notice more for each restart that falls between a publish and its write, and nothing for any other restart |
| RelayArrivals.UnheardCostOne | services/dozzle/alert_relay.py:1664-1688 | alerts that arrived though their publish raised: a day sees at most the ceiling and those |
| RelayArrivals.UnheardAlertHappens | services/dozzle/alert_relay.py:1664-1688 | a run under a ceiling of one in which two alerts arrive, the first unheard |
| RelayThreads.ShareHolds | services/dozzle/alert_relay.py:1564-1688 | per container, while its counter is not evicted: at most the OOM ceiling in all, the ordinary ceiling of others, one notice |
| RelayThreads.RunBacked | services/dozzle/alert_relay.py:1524-1688 | with a store only the relay writes, no counter anywhere says more than was really published that day, restarts and lost writes included |
| RelayThreads.SilencedOnlyWhenSpent | services/dozzle/alert_relay.py:1564-1615 | so a delivery is held back only when its ceiling was really reached that day |
| RelayThreads.HeldBackOnlyWhenSpent | services/dozzle/alert_relay.py:1564-1658 | the same of the message a thread's plan sends: whatever asks to be published goes out as an alert unless a ceiling it falls under was really reached that day |
| RelayThreads.PublishOutsideLockBreaches | services/dozzle/alert_relay.py:1664-1669 | with publish outside the lock some run passes the ceiling |
| RelayBounds.Measure | services/dozzle/alert_relay.py:1023-1036 | the serialised size, added entry by entry in any order |
| RelayText.SizeIsLength | services/dozzle/alert_relay.py:1013-1036 | what is measured is the length of the JSON text that is written, ASCII only, character by character |
| RelayBounds.BoundedState | services/dozzle/alert_relay.py:1185-1229 | the measure-and-drop loop ends in the greatest part of the state that fits among those the shedding order allows |
| RelayBounds.FitsMonotone | services/dozzle/alert_relay.py:1185-1229 | a part of a state that fits also fits |
| RelayBounds.RefusedExactly | services/dozzle/alert_relay.py:1219-1228 | it raises if and only if the unhealthy entries with no counter do not fit |
| RelayBounds.BoundedKeeps | services/dozzle/alert_relay.py:1185-1229 | every unhealthy entry survives verbatim and nothing is invented |
| RelayBounds.SurvivorsAre | services/dozzle/alert_relay.py:1192-1229 | no healthy entry past its retention survives; of the rest, counters with the lowest counts went first, then the earliest healthy entries, and none of those while a counter is left |
| RelayBounds.SheddingNeeded | services/dozzle/alert_relay.py:1200-1229 | and nothing went for nothing: whatever more that order allows does not fit |
| RelayBounds.AllSurvive | services/dozzle/alert_relay.py:1200-1213 | if everything within its retention fits with every counter, all of it survives |
| RelayHealth.HealthTransition | services/dozzle/alert_relay.py:1691-1726 | drops the event exactly when the recorded entry outranks it or it is a Recovery on a tie, and keeps of recorded and reported whichever ranks higher: instant first, healthy winning ties, the recorded entry on a tie |
| RelayHealth.PublishesExactly | services/dozzle/alert_relay.py:1691-1726 | a Recovery publishes exactly over a recorded unhealthy state it outranks; an Unhealthy exactly when nothing recorded outranks it |
| RelayHealth.SettledIsHighest | services/dozzle/alert_relay.py:1691-1726 | a register ends at the highest rank reported for its container |
| RelayHealth.OrderIndependent | services/dozzle/alert_relay.py:1691-1726 | any two delivery orders of the same events end in the same states and instants |
| RelayRegisters.SectionTakes | services/dozzle/alert_relay.py:1618-1688 | a section that sheds no entry leaves in the store what the event makes of the register, whether it was processed or recognised as a repeat |
| RelayRegisters.RegisterOrderIrrelevant | services/dozzle/alert_relay.py:1632-1726 | any two deliveries of the same events, from the renamed host too, end with the same containers in the same state, filed under the same names |
| RelayRegisters.DeliveryOrderIrrelevant | services/dozzle/alert_relay.py:1618-1726 | whole sections, repeat check included, of the same container events in any order, repeated or not, at any times and under any ceilings and windows, leave the same states and instants in the store |
| RelayDedupe.DeliveredEvents.Seen | services/dozzle/alert_relay.py:1802-1810 | prunes from the oldest until one is inside the window, then answers by membership |
| RelayDedupe.DeliveredEvents.Record | services/dozzle/alert_relay.py:1812-1818 | moves the event to the end and forgets the oldest past the capacity |
| RelayDedupe.SeenExactly | services/dozzle/alert_relay.py:1782-1818 | with the clock going forward, an envelope is recognised exactly while its latest publish is inside the window and fewer than the capacity of others went out after it |
| RelayDedupe.NoRepeatInWindow | services/dozzle/alert_relay.py:1782-1818 | two publishes of one envelope inside the window have at least the capacity of distinct other envelopes between them |
| RelayDocuments.WrittenIsRead | services/dozzle/alert_relay.py:1023-1182 | a well-formed state within the bounds is read back as exactly the same entries and budget |
| RelayDocuments.AcceptedIsCanonical | services/dozzle/alert_relay.py:1039-1182 | an accepted version-3 document is the one document its own state writes |
| RelayDocuments.ParsedWellFormed | services/dozzle/alert_relay.py:1083-1182 | whatever a read accepts has valid identities and a valid day |
| RelayDocuments.Version1Exactly | services/dozzle/alert_relay.py:1132-1152 | a version-1 document is accepted exactly when its identities are valid and strictly rising, as unhealthy entries of the earliest instant |
| RelayDocuments.Version2Exactly | services/dozzle/alert_relay.py:1154-1182 | a version-2 document exactly when also its states and timestamps are valid and it lists at most 128, as the entries it lists |
| RelayDocuments.Version3Exactly | services/dozzle/alert_relay.py:1039-1129 | a version-3 document exactly when its budget is too, as the entries, the counters and the totals it lists |
| RelayDocuments.MigrationKeepsEntries | services/dozzle/alert_relay.py:1083-1182 | a migrated document, were it rewritten with any budget, would be read back as the same entries; for version 1 exactly when it lists at most 128 |
| RelayOverload.ActsExactly | services/dozzle/alert_relay.py:1632-1660 | a section acts exactly when its event is not dropped and the unhealthy entries it leaves fit |
| RelayOverload.LegacySections | services/dozzle/alert_relay.py:1132-1229 | what a section does with an accepted version-1 document of more than 128: nothing, unless it lists 129, the event heals one of them, and the rest fits |
| RelayOverload.LegacyDocumentSilences | services/dozzle/alert_relay.py:1132-1229 | while every read finds a version-1 document of 130 or more, no run publishes, charges or writes anything |
| RelayOverload.NothingEverPublished | services/dozzle/alert_relay.py:1185-1229 | the same for any register with two unhealthy containers too many, or with one too many while nothing recovers |
| RelayOverload.LongDocumentAccepted | services/dozzle/alert_relay.py:1132-1152 | version-1 documents of every length up to 256 are accepted |
| RelayDocuments.SectionsWriteReadableState | services/dozzle/alert_relay.py:1618-1688 | from an accepted document or no document at all, whatever a section decides to write is well-formed, fits the size bound, and is read back as itself |
| RelayStore.EveryWriteReadsBack | services/dozzle/alert_relay.py:1185-1256 | in every run, with restarts, lost writes and rolled-back reads, the floor names valid identities only and every state ever written is well-formed, fits and is read back as itself |
| RelayStore.WritesAreAnswers | services/dozzle/alert_relay.py:1232-1255 | a read that returns any earlier write is again a read of an accepted document, so that run of sections can go on |
| Messages.HtmlEscape | services/dozzle/alert_relay.py:567-592 | the result is the escaped form of the longest prefix within both bounds |
| Messages.EscapeRoundTrip | services/dozzle/alert_relay.py:567-592 | reading the entities back gives the value, and no markup character is left |
| Messages.FitMessage | services/dozzle/alert_relay.py:595-627 | the loop and the cut compute `Fit` |
| Messages.FitBound | services/dozzle/alert_relay.py:595-627 | never more than 1024 characters |
| Messages.KeptIs | services/dozzle/alert_relay.py:611-616 | the lines kept are the longest prefix that fits, and the first line at least |
| Messages.FitKeeps | services/dozzle/alert_relay.py:611-616 | with a first line that fits the message is the lines themselves, the longest prefix within the bound |
| Messages.FitEmpty | services/dozzle/alert_relay.py:602-608 | when the result is empty: exactly for no lines, or a blank first line whose next line cannot follow it |
| Messages.SomethingBecomesNothing | services/dozzle/alert_relay.py:602-616 | a blank line before one of 1024 characters is sent as nothing |
| Messages.ComposeMessage | services/dozzle/alert_relay.py:630-654 | the details kept are the longest prefix that leaves the whole within the bound |
| Messages.LeadAndClosingSurvive | services/dozzle/alert_relay.py:640-654 | when lead and closing fit, both are whole in the message, with exactly the detail prefixes that fit |
| MessageMarkup.ScansLeaveTokens | services/dozzle/alert_relay.py:617-619 | the two scans at the end of a cut leave exactly the whole tokens before it |
| MessageMarkup.ScanTokens | services/dozzle/alert_relay.py:620-626 | the textual search for unclosed tags is the search over tokens |
| MessageMarkup.CutKeeps | services/dozzle/alert_relay.py:617-627 | a first line over the bound keeps its longest token prefix that leaves room for the marker, cut back to before the first element opened in it that nothing in it closes |
| MessageMarkup.CutIsWellNested | services/dozzle/alert_relay.py:595-627 | a well-nested line with no tag inside itself is cut to its longest well-nested token prefix that leaves room for the marker |
| MessageMarkup.PlainCut | services/dozzle/alert_relay.py:617-627 | text with neither tag nor entity keeps its first 1023 characters |
| MessageMarkup.EscapedIsText | services/dozzle/alert_relay.py:567-592 | an escaped value is text and entities only, so it opens and closes nothing |
| ConfigarrTree.TreeProjection.Enter | filter_plugins/acquisition_configarr.py:74-153 | records one node, refusing one too many and a repeated id or name |
| ConfigarrTree.TreeProjection.ProjectItem | filter_plugins/acquisition_configarr.py:74-153 | the recursion over one node updates the shared counter, maps and list by exactly its nodes, or refuses |
| ConfigarrTree.ProfileTree | filter_plugins/acquisition_configarr.py:74-153 | succeeds exactly on acceptable items and returns the tree |
| ConfigarrTree.AcceptedExactly | filter_plugins/acquisition_configarr.py:74-153 | acceptable means: at every path a node at most sixteen deep with a safe name, a leaf with nothing below it, a group with something, ids in range, and over all nodes at most 512 with no id or name twice |
| ConfigarrTree.AcceptedMaps | filter_plugins/acquisition_configarr.py:74-153 | at most 512 nodes; the name and id maps are mutual inverses over exactly all nodes |
| ConfigarrTree.AcceptedDepth | filter_plugins/acquisition_configarr.py:74-153 | no recorded node lies deeper than 16 |
| ConfigarrTree.IdentitiesIgnoreOrder | filter_plugins/acquisition_configarr.py:74-153 | reordering siblings at any level changes neither acceptance nor the recorded identities |
| ConfigarrProfile.DefinitionLookup | filter_plugins/acquisition_configarr.py:1500-1532 | indexes definitions by name and title, last writer winning, refusing unsafe or repeated names |
| ConfigarrProfile.MaterializedItems | filter_plugins/acquisition_configarr.py:1551-1623 | the loops build the declared items in reverse and the undeclared ones in reading order, in the block order asked for |
| ConfigarrRepair.ProjectedItemOrder | filter_plugins/acquisition_configarr.py:900-932 | splits the items into two blocks and names their order |
| ConfigarrRepair.BlocksMeans | filter_plugins/acquisition_configarr.py:900-932 | an order is `top` when every enabled item is followed by enabled items only, and conversely for `bottom` |
| ConfigarrRepair.RepairItems | filter_plugins/acquisition_configarr.py:1692-1716 | the materialised items and the numeric id of the cutoff among them, or refusal |
| ConfigarrRepair.RepairFormatItems | filter_plugins/acquisition_configarr.py:1719-1751 | scores the owned format as declared and every other zero; refuses when it is missing |
| ConfigarrIdentities.LookupIs | filter_plugins/acquisition_configarr.py:1500-1532 | a name resolves to the last definition that carries it as name or title |
| ConfigarrIdentities.MaterializedMember | filter_plugins/acquisition_configarr.py:1551-1623 | the nodes of a materialised profile: each declaration's own, and every quality left over |
| ConfigarrIdentities.IdentitiesAgree | filter_plugins/acquisition_configarr.py:74-153 | identities recorded from raw and from projected definitions agree exactly when grouped names mean themselves in name order, given that they do in reading order |
| ConfigarrConvergence.SortReadsBack | filter_plugins/acquisition_configarr.py:900-932 | the order reads back as declared unless `bottom` leaves nothing undeclared |
| ConfigarrConvergence.EnabledReadsBack | filter_plugins/acquisition_configarr.py:1109-1161 | the enabled block reads back as declared exactly when every declared name is the name of its quality |
| ConfigarrConvergence.NamesReadBack | filter_plugins/acquisition_configarr.py:968-1004 | every quality of the service reads back once, whatever was declared |
| ConfigarrConvergence.DisabledReadsBack | filter_plugins/acquisition_configarr.py:1338-1341 | the disabled names read back as every quality not declared |
| ConfigarrConvergence.FormatsReadBack | filter_plugins/acquisition_configarr.py:935-965 | the owned assignment reads back alone with its score and every other score is zero |
| ConfigarrConvergence.CutoffReadsBack | filter_plugins/acquisition_configarr.py:1692-1716 | the numeric cutoff reads back as the declared name |
| ConfigarrQuiet.QuietExactly | filter_plugins/acquisition_configarr.py:1754-1789 | a readable service is left alone exactly when its owned profile is the declared one field by field: the upgrade setting and scores, the cutoff's node, the owned format once and the others zero as declared, the enabled block, the refused rest, the order and the nodes; otherwise a PUT is sent exactly when a body can be built |
| ConfigarrConvergence.RepairConverges | filter_plugins/acquisition_configarr.py:1754-1789 | one PUT touches seven fields of one profile; afterwards nothing is left to repair exactly when the declaration settles, otherwise the same PUT is sent again |
| ConfigarrConvergence.EveryRun | filter_plugins/acquisition_configarr.py:1754-1789 | after the first PUT every later run is quiet if the declaration settles, and every later run sends that PUT again if not |
| ConfigarrConvergence.ResetOffNeverSettles | filter_plugins/acquisition_configarr.py:935-965 | a declaration that leaves unmatched scores alone is repaired on every run |
| ConfigarrFailures.PutExactly | filter_plugins/acquisition_configarr.py:1754-1789 | some service with given definitions is sent a PUT exactly when the declaration can be read and built against them and its cutoff is found |
| ConfigarrFailures.ResetOffHappens | filter_plugins/acquisition_configarr.py:1754-1789 | a declaration and a service for which it happens |
| ConfigarrFailures.AllDeclaredHappens | filter_plugins/acquisition_configarr.py:1551-1623 | sorted to the bottom with every quality declared: the same PUT on every run |
| ConfigarrFailures.TitleHappens | filter_plugins/acquisition_configarr.py:1500-1532 | a quality declared by its title after another: the same PUT on every run |
| ConfigarrFailures.TakeoverHappens | filter_plugins/acquisition_configarr.py:1500-1532 | a title that takes over a grouped name only when the definitions are read in name order: everything else settles, and the same PUT on every run |
| ConfigarrFailures.CutoffFoundExactly | filter_plugins/acquisition_configarr.py:1692-1716 | the cutoff is found exactly when it is the name of a quality or of a declared group |
| ConfigarrFailures.TitleFirstRaises | filter_plugins/acquisition_configarr.py:1692-1716 | so a declaration whose first entry is a title is refused on every run, before any PUT |
| ConfigarrDefinitions.Settled | filter_plugins/acquisition_configarr.py:759-786 | true exactly when every declared definition carries its three declared sizes |
| ConfigarrDefinitions.ServiceInvariants | filter_plugins/acquisition_configarr.py:789-857 | one pass fills the live pairs, the declared pairs and the context, each then sorted |
| ConfigarrDefinitions.ReportsExactly | filter_plugins/acquisition_configarr.py:716-756 | the report names exactly the definitions whose sizes or stated title are off, with both sides |
| ConfigarrDefinitions.WaitAndReportAgree | filter_plugins/acquisition_configarr.py:716-786 | nothing is reported exactly when the wait is over and every stated title is the live one |
| ConfigarrDefinitions.EqualIsEmptyReport | filter_plugins/acquisition_configarr.py:716-857 | the live and declared lists are equal exactly when the report is empty |
| ConfigarrDefinitions.NothingLost | filter_plugins/acquisition_configarr.py:789-857 | pairs and context together rebuild exactly the definitions that were read |
| ConfigarrDefinitions.ContextRises | filter_plugins/acquisition_configarr.py:789-857 | the context stands in strictly rising name order |
| PollerSelection.GatingRunsAre | scripts/production_auto_deploy.py:519-530 | the runs that gate a revision are its completed pushes of the workflow on the branch |
| PollerSelection.VerdictMeans | scripts/production_auto_deploy.py:589-612 | each verdict as a condition on the listed runs: green is exactly one pass, a failure is read from the newest judged run |
| PollerSelection.CandidateRevisions | scripts/production_auto_deploy.py:533-553 | the loop computes the walk |
| PollerSelection.CandidatesAre | scripts/production_auto_deploy.py:533-553 | the walk is the head and then every other revision with a completed gating run, once each |
| PollerSelection.NewestRunsFirst | scripts/production_auto_deploy.py:533-553 | past the head, in the order of their newest runs |
| PollerSelection.SelectRevision | scripts/production_auto_deploy.py:1897-1923 | the loop over the walk with its early returns computes the selection |
| PollerSelection.SelectedExactly | scripts/production_auto_deploy.py:1897-1923 | the whole outcome: past what CI has not judged and git knows to be newer, the walk ends at the first other revision with its record, its verdict or git's refusal, or with what it stepped over first |
| PollerSelection.NewerExactly | scripts/production_auto_deploy.py:1926-1948 | newer means git knows the last success strictly below the revision, and the revision below the head unless it is the head |
| PollerSelection.CandidateExactly | scripts/production_auto_deploy.py:1897-1948 | a revision is released exactly when it is the first green one, nothing before it was judged or recorded, and git knows each of them newer than the last success |
| PollerAttempts.Poller.PruneAttempts | scripts/production_auto_deploy.py:687-728 | keeps the newest fifty and of those the fresh ones |
| PollerAttempts.Poller.RecordAttempt | scripts/production_auto_deploy.py:737-743 | the record ends with this revision at this second, holds at most fifty, and every other entry was there before and is of another revision |
| PollerAttempts.Poller.ForgetAttempt | scripts/production_auto_deploy.py:746-751 | an entry is left exactly if it was there and is of another revision, so this revision alone leaves the record |
| PollerAttempts.Poller.MayRetry | scripts/production_auto_deploy.py:779-795 | counts in the one slot, says no past the limit and when the counter cannot be written |
| PollerAttempts.Poller.Deploy | scripts/production_auto_deploy.py:2014-2061 | what each outcome of an attempt leaves of the record, the slot and the last success |
| PollerAttempts.Poller.EligibleRevision | scripts/production_auto_deploy.py:1975-1993 | a retry overrides the record and never the ordering |
| PollerAttempts.Poller.Poll | scripts/production_auto_deploy.py:2064-2082 | one poll, stopping anywhere: the whole new state and what was attempted |
| PollerAttempts.RecordKept | scripts/production_auto_deploy.py:687-743 | the record stays within fifty, always keeps the attempt just made, and gains no other |
| PollerAttempts.PrunedExactly | scripts/production_auto_deploy.py:687-728 | pruning keeps exactly the entries among the newest fifty whose stamp is within the retention |
| PollerAttempts.PrunedShas | scripts/production_auto_deploy.py:687-728 | pruning adds nothing and keeps the bound |
| PollerRuns.AttemptExactly | scripts/production_auto_deploy.py:1975-1993 | a poll may attempt exactly what the walk releases, under a retry only the retried revision if it was attempted before and is not deployed |
| PollerRuns.SuccessesAscend | scripts/production_auto_deploy.py:1897-2082 | over any run, recorded successes form a strictly ascending chain in the true ancestry |
| PollerRuns.AttemptIsOnBranch | scripts/production_auto_deploy.py:1897-1948 | and once there was a success, whatever is attempted lies below the head of the branch or is it |
| PollerRuns.AttemptLeavesSlot | scripts/production_auto_deploy.py:2014-2082 | what an attempt leaves of the slot, by its outcome and the forgivenesses spent, a retry that clears the slot counting from none |
| PollerRuns.AttemptLeavesLast | scripts/production_auto_deploy.py:2035-2061 | the last success changes exactly with a success that was recorded |
| PollerRuns.AttemptLeavesRecord | scripts/production_auto_deploy.py:2014-2082 | and whether it leaves the revision on the record: always, unless it failed for passing reasons with forgiveness left |
| PollerRuns.OthersKept | scripts/production_auto_deploy.py:737-743 | with room on the record every other fresh entry stays |
| PollerRuns.NoAttemptKeeps | scripts/production_auto_deploy.py:2064-2082 | a poll that attempts nothing keeps the record as pruned, but for a revision a retry forgot |
| PollerRuns.RetryStartsOver | scripts/production_auto_deploy.py:2076-2082 | after a retry a failure for passing reasons is the first again, whatever the slot held |
| PollerRuns.FailingUsesAll | scripts/production_auto_deploy.py:779-795 | a revision that stays released and keeps failing for passing reasons is attempted exactly as often as the bound allows |
| PollerRuns.RetryBuysAll | scripts/production_auto_deploy.py:2064-2082 | a retry buys exactly the attempt itself and every forgiveness after it |
| PollerRuns.AttemptUses | scripts/production_auto_deploy.py:2014-2061 | an attempt uses up one of those left, all of them unless it was forgiven |
| PollerRuns.AttemptBound | scripts/production_auto_deploy.py:779-795 | with crashes anywhere an undisturbed revision is attempted at most once plus three times |
| PollerRuns.DisturbedBound | scripts/production_auto_deploy.py:687-795 | over every run without exception: at most that, and one round of attempts more for each poll that retries the revision, lets its record age out or takes its slot |
| PollerRuns.QuietRunBound | scripts/production_auto_deploy.py:687-795 | the same from what a caller can look up: no retry, no attempt of another revision, and a clock that stays within the retention less a second |
| PollerRuns.OutcomeEnds | scripts/production_auto_deploy.py:2014-2061 | a success, a real failure, a crash or an unwritable counter ends its attempts |
| PollerRuns.SlotIsShared | scripts/production_auto_deploy.py:779-795 | polls whose heads alternate between two green revisions that fail in turn attempt each of them n times in n rounds, for every n and with no retry, which is why the bound excludes another revision's attempts |
| PollerNotices.Watcher.NoteBlindPoll | scripts/production_auto_deploy.py:1773-1800 | counts, and from the third announces until delivered, marking only then |
| PollerNotices.Watcher.NoteSeeingPoll | scripts/production_auto_deploy.py:1803-1830 | announces recovery past the threshold, keeps everything when that is not delivered, then clears marker and count |
| PollerNotices.AnnouncedExactly | scripts/production_auto_deploy.py:1773-1830 | in a run where everything is delivered and lands, an alarm goes out exactly with the third blind poll in a row and a recovery exactly with the first that sees after three or more |
| PollerNotices.CountIsStreak | scripts/production_auto_deploy.py:1773-1830 | and the count is the number of blind polls since the last that saw |
| PollerNotices.AlarmsAlternate | scripts/production_auto_deploy.py:1773-1830 | as long as every delivered alarm is marked, two alarms have a recovery between them, whatever else is lost |
| PollerNotices.MarkerMeansCount | scripts/production_auto_deploy.py:1773-1830 | the marker implies a count at or above the threshold after any run |
| PollerNotices.UnmarkedAlarmRepeats | scripts/production_auto_deploy.py:1798-1800 | with the marker write lost the alarm repeats |
| PollerNotices.MarkerIsLastNotice | scripts/production_auto_deploy.py:1773-1830 | as long as marker writes land, the marker is set after any run exactly when the last delivered notice is an alarm |
| PollerNotices.RecoveriesFollowAlarms | scripts/production_auto_deploy.py:1803-1830 | over every run from a fresh start, each delivered recovery directly follows a delivered alarm if and only if every seeing poll past the threshold that delivers found the marker set |
| PollerNotices.RecoveryWithoutAlarm | scripts/production_auto_deploy.py:1803-1811 | a run of four polls that breaks it: the alarm is never delivered and the recovery is |
| PollerNotices.VerifyRecord.NoteVerifyVerdict | scripts/production_auto_deploy.py:2193-2258 | pages on a change only, a first pass recorded without one, and records only what was delivered |
| PollerNotices.PagesChange | scripts/production_auto_deploy.py:2193-2258 | consecutive delivered pages for one tag never carry the same verdict, whatever other tags do |
| PollerNotices.PagesExactly | scripts/production_auto_deploy.py:2193-2258 | where everything lands, a tag's pages are exactly the changes of its verdicts, a first pass excepted |
| PollerNotices.UnrecordedPageRepeats | scripts/production_auto_deploy.py:2249-2258 | with the record lost the page repeats |
| Bazarr.Report.Walk | filter_plugins/acquisition_bazarr.py:566-583 | the recursion appends exactly the differences below |
| Bazarr.WalkExactly | filter_plugins/acquisition_bazarr.py:559-583 | a path of segments is reported exactly when it belongs to a chain of keys that leads to a real difference |
| Bazarr.EmptyIsEqual | filter_plugins/acquisition_bazarr.py:566-599 | the list is empty exactly when the projections are equal |
| BazarrPaths.LinesExactly | filter_plugins/acquisition_bazarr.py:559-599 | a line is printed exactly when some chain of keys that leads to a difference prints as it |
| BazarrPaths.NoLinesExactly | filter_plugins/acquisition_bazarr.py:559-599 | no line is printed exactly when the two projections are equal |
| BazarrPaths.SharedLines | filter_plugins/acquisition_bazarr.py:559-599 | two printable paths print as one line exactly when they are the same once every dotted key is read as the two identifiers it joins |
| BazarrPaths.ChainsShareLine | filter_plugins/acquisition_bazarr.py:559-599 | so do the chains behind two differences, and no others |
| BazarrPaths.DottedKeyShares | filter_plugins/acquisition_bazarr.py:559-563 | a key `a.b` and a key `b` under `a` print alike |
| BazarrPaths.LineTwice | filter_plugins/acquisition_bazarr.py:559-599 | two projections that differ in two settings and print one line twice |
| Bazarr.ProviderProjection | filter_plugins/acquisition_bazarr.py:374-427 | the two inner loops, in any listing order: masked settings on neither side, undeclared ones on both, declared ones normalised |
| Bazarr.ProviderProjections | filter_plugins/acquisition_bazarr.py:374-427 | the pairing of every declared provider, or refusal |
| Bazarr.PairingDiffers | filter_plugins/acquisition_bazarr.py:157-172 | in a pairing exactly the drifted settings differ |
| Bazarr.SidesExactly | filter_plugins/acquisition_bazarr.py:374-427 | a masked setting stands on neither side, an undeclared one on both as it is, a declared one is wanted as declared and live as read |
| BazarrReading.ReadsExactly | filter_plugins/acquisition_bazarr.py:157-172 | a live value is refused exactly when it cannot be read in the type of the declared one |
| BazarrReading.AgreesExactly | filter_plugins/acquisition_bazarr.py:157-172 | what is read equals what is declared exactly when the live value says so: a truth value in words of any case, an integer in digits with zeros and a minus in front, white space around either |
| BazarrReading.DriftsExactly | filter_plugins/acquisition_bazarr.py:374-427 | so a setting drifts exactly when it is declared, and missing or, unmasked, saying something else |
| Bazarr.DriftReported | filter_plugins/acquisition_bazarr.py:374-599 | a path is reported exactly for a declared, unmasked setting that is absent or whose normalised live value differs, under the provider's name and its own |
| ImmichScan.Scan.ChangedBelow | services/immich/classify_restore.py:260-286 | the recursion with its shared counter computes `ScanBelow` |
| ImmichScan.ScanSound | services/immich/classify_restore.py:260-286 | a change found is real, and within the cap none found means none is there, every directory was readable and every entry was counted |
| ImmichScan.TreeByPath | services/immich/classify_restore.py:251-307 | newer and readable in terms of paths: the root or a directory at some path below it is newer, the directory at every path can be listed |
| ImmichScan.OriginalsChangedSince | services/immich/classify_restore.py:251-307 | true only for a newer root or directory, within the cap and with readable directories exactly then; a newer root is always seen |
| ImmichScan.CapHides | services/immich/classify_restore.py:246-286 | past the cap a change can go unseen |
| DeploymentImages.ImagesOf | filter_plugins/deployment_summary.py:27-45 | merges the services' images in listing order, refusing an unnamed service |
| DeploymentImages.MergedIs | filter_plugins/deployment_summary.py:27-45 | the merged reference of a container is the last one listed for it under its service's name |
| DeploymentImages.DeploymentImageChanges | filter_plugins/deployment_summary.py:61-97 | the nested loops over sorted names compute the changes |
| DeploymentImages.ChangesExactly | filter_plugins/deployment_summary.py:61-97 | one entry for every image added, removed or given another reference, and no other |
| DeploymentImages.VersionIs | filter_plugins/deployment_summary.py:48-54 | the tag of every reference: before any digest, in the last segment, after the last colon |
| DeploymentImages.ReportExactly | filter_plugins/deployment_summary.py:61-97 | the report lists the images that moved, by service and then container, each as added, removed, updated when the tags differ or repinned when they do not, with its tags and reference |
| DeploymentImages.ManifestsUnchanged | filter_plugins/deployment_summary.py:27-97 | nothing is reported exactly when both manifests list the same images |
| DeploymentImages.ChangesRebuild | filter_plugins/deployment_summary.py:57-97 | carried out on the previous images the changes give the current ones exactly |
| DeploymentImages.LabelsMeet | filter_plugins/deployment_summary.py:57-58 | two images share a label exactly when they are one image, one service name is the other's with a slash and the front of its container name, or a service named like its container has the other's joined name |
| DeploymentImages.LabelsUniqueExactly | filter_plugins/deployment_summary.py:57-97 | no label repeats among the changes if and only if no two images that moved have names that meet so |
| DeploymentImages.LabelsUnique | filter_plugins/deployment_summary.py:57-97 | in particular no label repeats when no name holds a slash |
| DeploymentImages.SlashCollides | filter_plugins/deployment_summary.py:57-97 | two manifests whose changes carry one label twice |

## Left out

- RelayThreads.TotalsHold: one process and one stretch of sections naming one day; what restarts cost is in `RelayRestarts`, and since the clock is read before the lock two sections may name different days out of order, so the day is a hypothesis.
- RelayRestarts.CutsCostOne: for runs in which every read answers what the store holds and every write lands; any other store is `RestartsCostCeilings`.
- RelayThreads.ShareHolds: says nothing of a container whose counter was evicted to keep the document within its bounds, because the code then forgets it.
- RelayDedupe.NoRepeatInWindow: for sections whose clock does not go back; a clock that does makes the code forget early, towards sending again.
- PollerRuns.AttemptBound: while nobody retries the revision, its record does not age out and no other revision takes the forgiveness slot; `QuietRunBound` gives conditions that ensure it, `DisturbedBound` what holds without them, and `SlotIsShared` why the last is needed.
- PollerNotices.AlarmsAlternate: for runs in which every delivered alarm is marked; `UnmarkedAlarmRepeats` is what happens otherwise.
- PollerNotices.RecoveriesFollowAlarms: for runs in which every write of the alarm marker lands; with one lost the marker no longer says what was delivered.
- RelayStore.EveryWriteReadsBack: deliveries are as the request handlers pass them on, with valid identities and a calendar day, and a read answers with an accepted document or that there is none; any other read ends the section in the code.
- RelayRegisters.DeliveryOrderIrrelevant: while publishes and writes land and no entry is shed for space, since a shed entry is forgotten by the code; events name the renamed host by its current name, as the envelope check leaves them.
- MessageMarkup.CutIsWellNested: for lines written as tokens with the five tags the service knows; a non-ASCII letter directly after a tag's name is taken as the end of the name.
- ImmichScan.OriginalsChangedSince: the originals root itself opens, and a directory does not change while it is scanned.
- Sockets, TLS, curl, Docker, git and ansible subprocesses are outcomes: a publish, a write, a deployment or a question to git succeeds, fails, or ends the program. A publish that raises counts as not delivered in the relay's own log; `RelayArrivals` says what arrives.
- Files are values that a write replaces or leaves; modes, symbolic links and fsync are not modelled, and the poller's state files read back as last written (an unreadable file reads as empty in the code).
- RelayOverload.LongDocumentAccepted: about the document once parsed; the bound on the bytes of the file that a read checks first is not part of it.
- JSON and YAML parsing and the shape checks on wrong types; of JSON only the text of the relay's state document is written out.
- Event timestamps are an instant and a number of fraction digits, in the form section 5.6 of RFC 3339 gives with `Z` and at most nine digits; the parser is not modelled. Two envelopes are the same when rule, host, container and timestamp are, the rule standing for the event kind it comes from.
- The text of notifications, titles, links and priorities, the choice of Pushover application, and Beszel's title parsing.
- The Configarr naming and custom-format projections and their repair, quality-definition overrides, and what the service does with a PUT beyond storing the body over the profile of that id.
- The two Configarr services are repaired one by one; an error in one stops both in the code.
- The order Python's `repr` gives keys is left open in the Bazarr walk: it decides only the numbers printed for keys that may not be named. Digits outside ASCII in an integer setting are not modelled.
- `note_ci_refusal`, log rotation, run logs, release announcements, `converge` and the hourly verification run itself.
