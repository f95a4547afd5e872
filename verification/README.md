# SleePod, verified

SleePod is a Kubernetes controller that scales workloads to zero and back on a daily
schedule. This project models the three parts of it that compute or change something
and proves how they behave, alone and together, in Dafny 4.11:

* **The schedule** (`Text`, `WorkingDays`, `Schedule`, `WeeklyHours`). From a clock reading, a
  wake and a sleep time of day and a working-day text, the controller computes "asleep
  now?" and "when to look next?". The ideal is a set of half-open shifts, one for each
  working day; the computation is proved against it, overnight shifts, cyclic day ranges
  and the wake = sleep case included.
* **The sleep order** (`Api`, `SleepOrderSpec`, `SleepOrderController`, `Conservation`, `Deletion`,
  `Protection`, `Frame`, `Snapshots`, `Tracking`, `StatusHistory`). A workload's replica count lives in its spec or,
  while asleep, in an annotation. `SleepOrderController` has the passes as methods that change
  the API server's objects write by write; `SleepOrderSpec` has the same passes as functions of
  what the server holds and of how the network answers each write (applied, refused, done but
  reported as failed, conflict, or nothing at all after some write). The other modules
  prove what all runs of these passes keep and reach.
* **The policy** (`ConfigHash`, `SleepPolicyLogic`, `SleepPolicyPass`, `SleepPolicyController`). A desired
  state is built from policy entries and workloads, and the namespace's orders are brought in
  line with it by name and hash.

`EndToEnd` joins the three: a workload covered by an enabled entry follows the schedule that entry
comes to.

Verify with `dafny verify dfyconfig.toml`.

## What turned out not to hold

* **Requeue at the announced event.** When wake equals sleep (and is not midnight) the state
  flips at midnight, which no event announces. `RequeueSoundness` says exactly when sleeping until
  the announced event is enough; `MissedMidnight` is the family that fails.
* **Deletion can lose the count.** `handleFinalizer` keeps using the count it captured before its first
  run, and an error of that step that does not ask to stop is dropped. Once the restore has been
  written, a later conflict, or a later refused write while the schedule says awake, makes the
  controller take the missing snapshot for a count of zero. `CountIsSafeUnlessAtRisk` gives the exact
  situation, `ConflictLosesCount` and `DroppedErrorLosesCount` the two ways it happens. A pass that
  merely stops, or none of whose writes fails, never loses the count, in that situation either, nor does
  one that meets no conflict while the schedule says asleep; while it says awake, conflicts are not
  needed (`ConflictFreeRisk`).
* **Deletion can leave the workload asleep.** A release that is done but reported as failed is dropped
  like any other error, and while the schedule says asleep the sleep step follows. A pass lets a
  terminating order go only with its workload at its non-zero count, whatever the network does, exactly
  when the schedule says awake and the pass is not at risk (`ReleasedAwakeOnly`).
* **A workload can sleep under an unprotected order.** A finalizer write that fails is dropped, and the pass
  goes on; unless another finalizer holds it, a deletion request then removes the order at once, its
  workload still at zero.
  `SleepsHeldOnlyExact` says exactly when this cannot happen. A policy pass that rewrites an order drops its
  finalizers as well (`WrittenOrderGoesAtOnce`), until the order's next pass puts its own on again
  (`LivePassAddsFinalizer`).
* **Deletion can hang.** A terminating order whose workload has zero replicas and no annotation map (or
  an unreadable snapshot) is not released by a complete pass, nor is one whose kind or schedule the
  controller cannot make sense of (`CompletePassReleases`); a saved count of zero can lead there
  (`ZeroCountCanStick`). Without an annotation map it is released by the pass after the first one made
  while asleep, with an unreadable snapshot never (`CompletePassesRelease`).
* **A stopped sleep pass can override its owner.** It leaves a snapshot on a running workload, which the
  wake pass does not remove; the next night restores the old count over a newer one
  (`StaleSnapshotWins`). The owner's count survives a night exactly when no readable snapshot says
  otherwise at its start (`NightGivesBack`).
* **A whole-week weekend means no weekend.** Taking all seven days out leaves an empty list, which
  counts every day as working (`WeekendComplement`, `DefaultWorkingDays`).
* **A weekend knows full day names only.** "Sat" is a working day to a list of working days (`DayTexts`) but
  takes nothing out of the week as a weekend (`WeekendOfOne`).
* **A terminating order can vanish.** If it is desired again with other parameters, the update drops its
  finalizers and with them the order, its workload still asleep (`TerminatingOrderIsLost`). The next
  pass creates it again: exactly then applying twice differs from applying once (`ApplyTwice`,
  `Converges`).
* **An empty desired state is reported again in every pass**, because an empty map is stored as an
  absent one (`Converges`).

Where the code and its documentation disagree the model follows the code: `workingDays` is documented as
limiting the days on which workloads sleep (line 36 of SleePod's own README.md), while the code keeps
them awake on those days only and asleep all day on the others.

## Model

| member | source | states |
|---|---|---|
| WorkingDays.IsDayWorking | internal/logic/time.go:111-153 | the loop over comma parts, with its range and wrap-around cases, computes the union of the parts' denotations, a range being the days met on the way round the week |
| WorkingDays.DayTexts | internal/logic/time.go:155-174 | a text denotes a weekday iff, blanks around it and letter case aside, it is that day's full name or its first three letters; no other text denotes a day |
| Text.TrimSpaceStrips | internal/logic/time.go:121-156 | trimming takes off exactly the blanks (space, tab, line feed, vertical tab, form feed, carriage return) around a text |
| WorkingDays.SingleDay | internal/logic/time.go:143-149 | a list without comma and dash works on exactly the day it denotes, if any |
| WorkingDays.RangeText | internal/logic/time.go:122-142 | a list with a dash works iff it is the only dash and a day name stands on either side, and then on the cyclic interval; any other use of a dash names no day |
| WorkingDays.ListIsUnion | internal/logic/time.go:119-152 | for non-empty texts, a comma joins two lists into the union of their days |
| WorkingDays.RangeIsCyclicInterval | internal/logic/time.go:122-142 | two day names joined by a dash denote exactly the cyclic interval between them, whatever their case and surrounding blanks |
| WorkingDays.RangeSize | internal/logic/time.go:122-142 | such a range holds ((last - first) mod 7) + 1 days |
| WorkingDays.ListIgnoresCase | internal/logic/time.go:116-119 | texts equal up to letter case name the same days |
| WorkingDays.CalculateWorkingDays | internal/controller/sleeppolicy_logic.go:324-342 | the nested loops compute the week's days not named by the weekend text, joined by commas |
| WorkingDays.WeekendComplement | internal/controller/sleeppolicy_logic.go:324-342 | for every weekend text a day works on the resulting list iff no comma part names it, or all seven days are named; the list is empty iff all seven are |
| WorkingDays.WeekendIsUnion | internal/controller/sleeppolicy_logic.go:326-336 | a comma joins two weekends into the union of their days |
| WorkingDays.WeekendOfOne | internal/controller/sleeppolicy_logic.go:330-334 | one part takes out a day iff it is that day's full name, blanks and case aside; a three-letter name takes out none |
| WorkingDays.WeekendIgnoresCase | internal/controller/sleeppolicy_logic.go:330-334 | weekends equal up to letter case leave the same list |
| Schedule.GetTimeState | internal/logic/time.go:28-101 | asleep iff no working day's shift covers the instant (ideal half-open shifts, overnight and wake = sleep included), with the next event, its name and the errors; and directly from the texts: which text cannot be read, in the code's order, or else the clock comparisons for day, overnight and equal times, the first instant at which a local clock shows the wake or the sleep time, and which of them it is |
| Schedule.TimeStateReadsTexts | internal/logic/time.go:28-101 | the ideal answer, for every text and instant, says what the time zone, wake and sleep texts and the working days say, each in its own role |
| Schedule.Calendar | internal/logic/time.go:116 | days have 1440 minutes, 1970-01-01 is a Thursday, and weekdays follow one another |
| Schedule.AwakeByLookBack | internal/logic/time.go:35-60 | the only shift that can cover an instant is today's, or yesterday's in the morning part of an overnight schedule |
| Schedule.EqualTimesWorkWholeDays | internal/logic/time.go:46-58 | when wake equals sleep the workload is awake exactly on working days, midnight to midnight |
| Schedule.NextEventIsLeast | internal/logic/time.go:62-78 | the next event is the least instant not before now whose local time of day is wake or sleep, and lies less than a day ahead |
| Schedule.EventAnnouncesItself | internal/logic/time.go:64-73 | a reading announces its own instant iff it is taken at an event |
| Schedule.LabelNamesTheShift | internal/logic/time.go:75-78 | strictly between events the label is "Sleep" iff some day's shift is under way; so "Sleep" when awake, and "Wake" when asleep and every day works |
| Schedule.LabelNamesTheEvent | internal/logic/time.go:63-78 | for every reading, also one at an event, the label is that of the event announced, "Sleep" when wake and sleep coincide |
| Schedule.RequeueSoundness | internal/logic/time.go:28-78 | the answer is constant from every reading to the event it announces iff wake differs from sleep, or both are midnight, or all weekdays are alike |
| Schedule.MissedMidnight | internal/logic/time.go:46-78 | in every other case there are a reading and a later instant before its announced event with opposite answers |
| WeeklyHours.WeeklyAccounting | internal/logic/time.go:34-60 | every window of seven days, wherever it starts, holds (working weekdays) times the shift length of awake instants |
| Text.AtoiItoa | internal/controller/sleeporder_controller.go:66-92 | the decimal text of a count is read back as that count, for every 64-bit integer |
| Text.AtoiExact | internal/controller/sleeporder_controller.go:88-92 | a text is read as a 64-bit integer iff it is an optional sign, zeros, and that integer's decimal magnitude |
| SleepOrderController.SleepOrderReconciler.SnapshotReplicas | internal/controller/sleeporder_controller.go:51-69 | saves the in-memory count in freshly read annotations with one write, as specified for every answer of the network; that the saved text means this count is `SnapshotSavesCount` and `SnapshotWrittenOnce` |
| SleepOrderController.SleepOrderReconciler.RestoreReplicas | internal/controller/sleeporder_controller.go:72-107 | error on a nil annotation map, zero without a snapshot, else the 32-bit saved count written back and the snapshot removed in one write; that it gives the saved count back is `DeletionGivesBack` and `PassBringsUpToDate` |
| SleepOrderController.SleepOrderReconciler.FinalizerAttempt | internal/controller/sleeporder_controller.go:187-237 | one run of the retried closure, with the captured count and every early return; what each run keeps, adds and releases is `AttemptStaysCalm`, `LivePassAddsFinalizer` and `CompletePassReleases` |
| SleepOrderController.SleepOrderReconciler.HandleFinalizer | internal/controller/sleeporder_controller.go:185-239 | the retry loop: the closure is run again on conflict only, five times at most, from where the last run left the objects |
| SleepOrderController.SleepOrderReconciler.HandleSleep | internal/controller/sleeporder_controller.go:241-274 | snapshot unless one exists, then scale to zero, then status, stopping at the first failure; that the count stays recoverable at each stop is `SleepKeepsCount` |
| SleepOrderController.SleepOrderReconciler.HandleWake | internal/controller/sleeporder_controller.go:276-295 | restore when the captured count is zero, write the count again, then status; that it ends with the count or keeps it recoverable is `LiveWake` and `WakeKeepsCount` |
| SleepOrderController.SleepOrderReconciler.UpdateStatus | internal/controller/sleeporder_controller.go:297-330 | the new status, its transition time changed only with the state, written unless nothing changes; that runs of passes lose nothing by the skipped writes is `StatusRemembersRun` |
| SleepOrderController.SleepOrderReconciler.Reconcile | internal/controller/sleeporder_controller.go:109-162 | a whole pass does to the server, for every state and every network, what the specification function says, asks to be called at the same instant, and keeps the recoverable count unless the pass is at risk |
| Conservation.PassKeepsCount | internal/controller/sleeporder_controller.go:109-295 | outside the at-risk situation no pass changes the recoverable count, however the network answers each write |
| Conservation.CountIsSafeUnlessAtRisk | internal/controller/sleeporder_controller.go:185-239 | a pass keeps the count under every network iff it does not give back a sleeping workload with a non-zero saved count whose other annotations survive |
| Conservation.ConflictLosesCount | internal/controller/sleeporder_controller.go:187-237 | in that situation a conflict on the finalizer write that follows the restore ends with the count lost, whatever the time |
| Conservation.DroppedErrorLosesCount | internal/controller/sleeporder_controller.go:153-160 | in that situation, when the schedule says awake, a refusal of the write after the restore ends with the count lost, no conflict needed |
| Conservation.ConflictFreeRisk | internal/controller/sleeporder_controller.go:153-160 | in that situation a pass keeps the count under every network without conflicts iff the schedule says asleep |
| Conservation.StoppedPassKeepsCount | internal/controller/sleeporder_controller.go:109-295 | a pass that stops after any number of writes keeps the count, at risk or not |
| Conservation.CountIsConserved | internal/controller/sleeporder_controller.go:51-295 | over every run of passes, policy rewrites, deletion requests and re-creations, in which passes at risk only stop, complete, or meet no conflict while the schedule says asleep, the recoverable count is the first one in every reachable state |
| Deletion.CompletePassReleases | internal/controller/sleeporder_controller.go:212-236 | a complete pass releases a terminating order iff its kind is supported and its workload is gone, or its schedule parses and the workload has replicas or can be restored from |
| Deletion.ReleasedAwakeOnly | internal/controller/sleeporder_controller.go:153-239 | for a terminating order of a workload with a non-zero count: no network makes a pass let the order go with the workload away from its count, iff the schedule says awake and the pass is not at risk |
| Deletion.CompletePassesRelease | internal/controller/sleeporder_controller.go:153-274 | any number of complete passes release a terminating order iff there is one and its workload has replicas or can be restored from, or it has no annotation map and a pass before the last is made while asleep, which creates the map |
| Deletion.DeletionGivesBack | internal/controller/sleeporder_controller.go:212-236 | a complete pass over a sleeping workload restores exactly the saved count, removes the snapshot and no other annotation, and releases the order |
| Deletion.DeletionSurvivesStops | internal/controller/sleeporder_controller.go:185-239 | after any number of deletion passes, each stopped after any write, the next complete one ends with the saved non-zero count and the order released |
| Deletion.ZeroCountCanStick | internal/controller/sleeporder_controller.go:79-87 | with a saved count of zero the order is released after every possible stop iff removing the snapshot does not leave a nil annotation map |
| Deletion.LetGoIsLeftAlone | internal/controller/sleeporder_controller.go:212-236 | a terminating order without the controller's finalizer is not acted on: the pass sends nothing and asks for no other |
| Protection.LivePassAddsFinalizer | internal/controller/sleeporder_controller.go:196-210 | no pass of a live order takes a finalizer away, and one without failing writes ends with exactly the former ones and the controller's own |
| Protection.DeletionIsHeldBack | internal/controller/sleeporder_controller.go:185-239 | after such a pass a deletion request leaves the order there, and the next complete pass ends with the workload at its non-zero count and the order released |
| Protection.SleepsHeldOnlyExact | internal/controller/sleeporder_controller.go:153-160 | no network makes a pass put a running workload to sleep under an order without the finalizer, iff the order had it before or the schedule says awake |
| Protection.ReleaseThroughConflicts | internal/controller/sleeporder_controller.go:185-239 | a terminating order of a running workload is released through k conflicts in a row iff k < 5 |
| Protection.RepeatedPassIsQuiet | internal/controller/sleeporder_controller.go:297-330 | a pass repeated between a completed one and the event it announced sends nothing, under every network, iff the schedule says awake, the count is not zero and the finalizer is on |
| Frame.PassTouchesOnly | internal/controller/sleeporder_controller.go:51-330 | under every network a pass changes of the workload only its count and the snapshot annotation, and of the order only status and own finalizer; an order goes away only if terminating and held by nothing else |
| Frame.OtherAnnotationsAreKept | internal/controller/sleeporder_controller.go:51-107 | over every run, whatever fails, the workload keeps all annotations but the snapshot |
| Frame.ErrorsNameTheirCause | internal/controller/sleeporder_controller.go:121-146 | a pass reports an unsupported kind, or a time zone, wake or sleep text that cannot be read, iff that is so, and then sends nothing; without an order it does nothing and reports no error |
| Frame.MissingTargetIsReported | internal/controller/sleeporder_controller.go:122-136 | without its workload an order loses the controller's finalizer, terminating or not; if it is still there, the status says so and the next pass is a minute later; if it went away with it, the pass fails |
| Snapshots.SnapshotWrittenOnce | internal/controller/sleeporder_controller.go:241-271 | after the first completed sleep pass the snapshot reads as that pass's count through any further sleep passes, on any network, and any outside scaling; each completed pass leaves zero replicas |
| Snapshots.NightGivesBack | internal/controller/sleeporder_controller.go:241-295 | a sleep pass and then a wake pass without failing writes end with the count of the snapshot that was there before if it can be read, else with the workload's own count; so the owner's count survives the night iff no readable snapshot differs from it |
| Snapshots.UnsetCountIsOne | internal/controller/sleeporder_controller.go:360-375 | a workload that states no count has one replica after its first night |
| Snapshots.StaleSnapshotWins | internal/controller/sleeporder_controller.go:244-295 | a night that gives back another count than the owner's is reachable: a snapshot left by a stopped sleep pass survives the wake pass and overrides any count scaled to afterwards |
| Tracking.PassBringsUpToDate | internal/controller/sleeporder_controller.go:109-330 | a pass of a live order that returns without error leaves zero replicas or the count as the ideal schedule wants, a truthful status and a call at the next event; any other pass still holds the count |
| Tracking.HealthyPassCompletes | internal/controller/sleeporder_controller.go:109-330 | without failing writes a pass returns without error iff, when awake, the workload has replicas or can be restored from, or, when asleep, no unreadable snapshot is there; always if its count is not zero |
| Tracking.ReplicasTrackSchedule | internal/controller/sleeporder_controller.go:141-160 | over whole runs, whatever the network did to other passes, from a completed pass to the event it announced (and until the next pass) the replicas are the count, zero included, exactly while the ideal schedule is awake, else zero |
| Tracking.SoundPassTracksSchedule | internal/controller/sleeporder_controller.go:141-160 | the same from every pass whose writes do not fail, with nothing assumed about its result |
| Tracking.HealthyRunCompletes | internal/controller/sleeporder_controller.go:109-330 | in a run without failing writes every pass of a live order with a non-zero count returns without error |
| Tracking.DisagreementIsConfined | internal/controller/sleeporder_controller.go:141-160 | if no pass fails and passes follow announced events within a lag, replicas and ideal can differ only after an announced event, before the next pass, and inside such a lag |
| StatusHistory.StatusRemembersRun | internal/controller/sleeporder_controller.go:297-330 | after any run of completed passes of a live order, on any network, the status has the last pass's state, next event and count, and the clock of the latest pass that found the schedule in another state than the pass before it (or than stored at the start) |
| ConfigHash.RenderInjective | internal/config/utils/utils.go:16-19 | records whose first six fields have no space render equally iff they are equal |
| ConfigHash.RenderIsUnique | internal/config/utils/utils.go:16-19 | a record is the only one with its rendering iff none of its seven fields has a space |
| ConfigHash.RenderText | internal/config/utils/utils.go:16-19 | the text digested is the seven fields in their declared order, one space between, in braces |
| SleepPolicyPass.RewrittenIfChanged | internal/controller/sleeppolicy_logic.go:239-243 | without a collision an order is taken for outdated iff some parameter changed |
| SleepPolicyLogic.OrderNamesAreDistinct | internal/controller/sleeppolicy_logic.go:314-322 | under one policy, order names coincide only for the same kind and name |
| SleepPolicyLogic.OrderNameText | internal/controller/sleeppolicy_logic.go:314-322 | the name is policy, "dep" or "sts", workload, joined by dashes |
| SleepPolicyLogic.DefaultCovers | internal/controller/sleeppolicy_logic.go:25-88 | validation keeps every entry, adds at most the default, covers every workload, is needed only once, and changes the policy iff it has no entry, or no default one while some workload has none |
| SleepPolicyLogic.CompletionGoverns | internal/controller/sleeppolicy_logic.go:46-81 | for each kind, after validation a workload without own or default entry is governed by an enabled, otherwise empty one, and every other workload by the entry it had; nothing else of the policy changes, and entries are added iff none are there, or no default and some workload has none |
| SleepPolicyLogic.DefaultWorkingDays | internal/controller/sleeppolicy_logic.go:191-198 | an entry without working days works every day outside the configured weekend, and every day if the weekend is the whole week |
| SleepPolicyLogic.DesiredStateExact | internal/controller/sleeppolicy_logic.go:129-209 | a workload's key is desired iff it is listed and its own, else the default, entry is enabled; the record has that entry's wake time, sleep time, time zone and working days, each in its place, and the configured default for each that is empty (for the days: those outside the weekend, if excluded, unless it is the whole week) |
| SleepPolicyLogic.DesiredKeysAreWorkloads | internal/controller/sleeppolicy_logic.go:129-157 | every desired key is the order name of a listed workload |
| SleepPolicyController.SleepPolicyReconciler.EnsureDefault | internal/controller/sleeppolicy_logic.go:38-50 | the loop with its early exit and the empty-map case compute the completed entries and whether they changed |
| SleepPolicyController.SleepPolicyReconciler.BuildTheDesiredState | internal/controller/sleeppolicy_logic.go:129-157 | the two loops build the desired state that `DesiredStateExact` and `DesiredKeysAreWorkloads` characterise |
| SleepPolicyController.SleepPolicyReconciler.DeleteUndesiredResources | internal/controller/sleeppolicy_logic.go:211-228 | in any order of visiting, undesired orders end removed, or marked if a finalizer holds them, and no other order changes |
| SleepPolicyController.SleepPolicyReconciler.NeedToDeploySleepOrder | internal/controller/sleeppolicy_logic.go:230-252 | create if missing, update if the hash differs, else nothing |
| SleepPolicyController.SleepPolicyReconciler.DeploySleepOrderResource | internal/controller/sleeppolicy_logic.go:254-312 | the order created or rebuilt without finalizers, status kept, removed if it was terminating |
| SleepPolicyController.SleepPolicyReconciler.ApplyDesired | internal/controller/sleeppolicy_controller.go:97-109 | every visiting order of the desired map gives the same orders |
| SleepPolicyController.SleepPolicyReconciler.Reconcile | internal/controller/sleeppolicy_controller.go:46-119 | a whole pass has the specified effect, requeue answer and writes; what passes come to is `Converges` for a live policy and `DeletedPolicyIsReleased` for one being deleted |
| SleepPolicyPass.ApplyCorrect | internal/controller/sleeppolicy_controller.go:87-109 | afterwards the live orders are exactly the desired keys iff no desired order was terminating, and every desired order is there with its desired spec iff none was terminating with an outdated hash and the compared hashes were faithful |
| SleepPolicyPass.TerminatingOrderIsLost | internal/controller/sleeppolicy_logic.go:287-306 | a desired order is missing afterwards iff it was terminating with an outdated hash |
| SleepPolicyPass.SpecsAreCurrent | internal/controller/sleeppolicy_logic.go:230-312 | over every run of apply passes, with orders changing or vanishing in between, each order desired last has exactly the spec and hash desired last |
| SleepPolicyPass.ApplyTwice | internal/controller/sleeppolicy_controller.go:92-109 | applying again changes nothing iff no desired order was terminating with an outdated hash, and finds nothing to write iff moreover no undesired order was held by a finalizer; after the second time every desired order is there with the current hash and not lost by a third |
| SleepPolicyPass.Converges | internal/controller/sleeppolicy_controller.go:56-118 | a live policy on an unchanging cluster is requeued exactly once per missing piece, at most twice; the next pass applies the desired state; the pass after it changes nothing iff no desired order was terminating with an outdated hash, and sends no write iff moreover something is desired and no undesired order is held back; at the latest then every desired order is there with the current hash, and passes change nothing from the third on |
| SleepPolicyPass.DeletedPolicyIsReleased | internal/controller/sleeppolicy_controller.go:56-74 | a policy being deleted loses its own finalizer in the first pass, or in the second if defaults are missing, which the first adds; every pass writes, only that first one of two asks to be called again, and none touches an order, the reported state or another finalizer |
| SleepPolicyPass.WrittenOrderGoesAtOnce | internal/controller/sleeppolicy_logic.go:254-312 | an order dropped from the desired state right after a pass is gone at once iff that pass wrote it (creating or updating) or no finalizer held it |
| EndToEnd.EnabledWorkloadFollowsPolicy | internal/controller/sleeppolicy_logic.go:128-209 | after the last of a run of policy passes, the order of each workload whose governing entry is enabled and readable, unless it was terminating, targets this workload and is live under a schedule with this entry's wake time, sleep time, offset and days (defaults where it has none); over every run of its passes workload and status are up to date after a completed pass and the replicas track that schedule until the event it announces |

## Left out

- Kubernetes client, caches, watches, scheme, RBAC, logging, leader election, `cmd/main.go`: plumbing; reads are current, passes of one order do not overlap, writes are answered by an explicit network.
- An object that disappears between a read and a write of the same pass: the "not found" answer to a write is not among the network's answers.
- Failing writes of the policy controller, and failing reads of both: policy passes are modelled without failures; a pass that stops midway leaves orders to which the statements about the next pass apply again.
- Owner references of orders (`SetControllerReference`) and the warnings about entries without a workload: neither changes what is modelled.
- Daylight saving and the time zone database, Go's clock parser and MD5: parameters of the model (`TimeLibrary`, `digest`); a time zone is a fixed offset, a failed parse an error.
- Non-ASCII text: case folding and blanks are those of ASCII.
- Sub-second precision lost when times are stored in a status: instants are kept exactly.
- Pointers to one object shared by caller and callee: a method that changes the in-memory copy of an object returns the changed copy.
- The object itself of a policy or a workload that goes away: a policy released by its last finalizer stays in the model as one without it.
- The order and repetition of finalizers in an object's list: finalizers are a set.
- `FetchSleepPolicyOrContinue` (internal/controller/sleeppolicy_controller.go:129-165): a short case split; policy passes start from the policy it picked.
- `spec.timezone` of a policy: never read by the code.
- internal/controller/namespace_controller.go, internal/config/config.go, `ParseDateFromStr`: single-branch checks that would only add easy members.
- Whether the runtime calls back at a requested instant that has already passed: the statements about runs quantify over the times at which passes are made.
