# The incident lifecycle, proved

A Dafny model of the two controllers that move an Incident from report to resolution, and of the
refresher of the check-reader role.

- The **state machine** (`Incidents`, `Machine`, `IncidentObject`): the status of an Incident and the
  operations that change it (`applySpec`, `record`, `recordApply`). `Machine` states each operation as a
  function of the status; the class `IncidentObject.Incident` does it in place, as the source does, and is
  proved equal to that function. Time is whole nanoseconds since the zero time; a persisted time is cut to
  the second (`Clock.Rfc3339Copy`).
- **Whole runs of the status** (`Lifecycle`, `History`, `ApplyRuns`): every sequence of decisions, checks, apply
  runs and reanalyses, what the status says about that history, and apply runs recorded a second time.
- The **Incident reconciler** (`CheckPods`, `Storage`, `Reconcile`, `Reconciler`, `Replay`, `Rounds`,
  `CompleteRounds`): pods are read into results, folded into a plan, and the plan carried out as an ordered
  list of API writes of which any may fail. `Reconciler.External` is the imperative form.
- The **concurrent system** (`System`, `SystemInvariants`, `SystemTheorems`, `Checks`, `Windows`,
  `Stay`, `OldRuns`, `SystemRuns`): one Incident, its reconciler interrupted between any two writes, lost replies, restarts, stale reads of the Incident, the
  other controller's recordings, human edits, the writer, the kubelet and deletion of pods by others.
- The **IncidentApply reconciler** (`Requests`, `Handshake`, `HandshakeTheorems`, `HandshakeFresh`,
  `HandshakeEnds`, `HandshakeRuns`, `Names`, `Arbitration`, `Requeue`, `TailBuffer`): admission, the create handshake with crashes, arbitration between requests,
  requeueing, the log tail. `Recordings` puts a request and its incident together.
- The **check-reader role** (`CheckReader`): the rules as the canonical form of what discovery says, kept
  through partial failures.

## What the proofs assume

- Reconciles of one object do not overlap. Every call that reaches the API server takes effect before a
  later reconcile of the object starts; a lost reply is modelled.
- `Update` and `Status().Update` check the resource version; the first touches only the spec, the second only
  the status. A store is the log of its versions, and a reconcile may read any earlier version of the Incident.
- Pod lists are fresh, and so is the list of requests that admission reads. A reconcile of an IncidentApply may
  read any earlier version of it; its pod is read past the cache, and marking its creation as pending checks
  the version. Lemmas that need the newest version read say `Fresh`.
- Nobody else deletes an apply pod before its Running phase is stored.
- A pod's times are whole seconds, not before its creation; the kubelet leaves a finished pod's status alone.
- The clock does not go back and starts after 1970. Where a lemma needs a poll interval of at least a
  second, or of whole seconds, it says so.
- An edit that unsets `spec.closed` is refused (`apis/incident/v1alpha1/types.go:105`).

## Where the code and its comments differ

The model follows the code.

- "Recording the same result twice changes nothing" (`internal/controllers/incident/machine.go:236`) holds
  behind the current-script guard of the reconciler for every incident that has its window while Verifying
  (`Replay.ReplayChangesNothing`), as every stored one does (`SystemTheorems.StoredVersionsReplay`). Without a
  window it fails exactly for a run past the window it starts itself (`Replay.RecordRestAgainExactly`), which
  some pod gives exactly when the settle window is no longer than the timeout's fraction of a second
  (`Replay.ReplayNeedsExactly`).
- "A run is recorded there once, whatever fails after" (`internal/controllers/incident/apply.go:404`) fails in two
  ways (`ApplyRuns.RecordAgainExactly` says exactly when). Another apply came in between, a person's or another
  request's, or a reanalysis: then the run, whatever its exit, replaces the newer entry
  (`ApplyRuns.PersonsApplyReplaced`). Or it exited 0 and the incident is found Open again, or in an older or
  missing window (`ApplyRuns.RecordedTwice`).
- "Only spec.applied or spec.closed moves" a flagged incident (`internal/controllers/incident/machine.go:254`,
  `apis/incident/v1alpha1/types.go:78`): an IncidentApply run that exits 0 moves it too, and a reanalysis starts
  it over (`History.FlaggedWaitsForAHuman`).
- Dropping the verify result of an earlier window (`internal/controllers/incident/machine.go:179-180`) does not
  keep an old run out of the new one: a verify pod created before the window and found done is recorded in it,
  and those are all such runs (`OldRuns.OldRunRecordedExactly`). A check in flight when a person applies again
  can resolve the incident (`SystemRuns.InFlightRunInNewWindow`).
- spec.applied is consumed after the status is stored, so as not to be lost
  (`internal/controllers/incident/incident.go:285-287`); the price is that it is acted on twice exactly when its
  reset does not follow its status (`SystemTheorems.ActedTwiceExactly`), which restarts the window
  (`SystemRuns.AppliedTwice`).
- "Only this controller writes its status" (`internal/controllers/incident/apply.go:417-418`) does not make a
  terminal phase final: the patch checks no version, and a reconcile that read an older one overwrites it
  (`HandshakeTheorems.TerminalOverwrittenExactly` says exactly when, `HandshakeRuns.SuccessCanTurnFailed` and
  `HandshakeRuns.SuccessCanTurnRefused` that it happens).
- "A group discovery could not read keeps the rules it has" (`internal/controllers/checkreader/checkreader.go:71-72`)
  holds for a group of which nothing was discovered (`CheckReader.GroupAfterRefresh`); a group with one version
  discovered and one failed loses what only the failed one served (`CheckReader.HalfFailedGroupLosesRules`).
- Only one request for an incident is admitted (`internal/controllers/incident/apply.go:624-625`) when none is
  created older than one that was admitted and has no pod yet (`Arbitration.AtMostOneAdmitted`), so when stamps
  never go back and names increase within a second (`Arbitration.AtMostOneInStampOrder`). Within one
  second the name may disagree with the order of creation; such a newcomer is free exactly when it is older
  (`Arbitration.FreeBesideAStartingOne`), and then two run (`Arbitration.SameSecondBothAdmitted`).

## Model

| member | source | states |
|---|---|---|
| Output.OutputOf | internal/controllers/incident/machine.go:55-68 | the decrementing loop ends on any bytes and gives what `Output.KeptExactly` says of the same text |
| Output.KeptExactly | internal/controllers/incident/machine.go:53-68 | what is kept, in terms of the bytes: nothing for exit 0 and 1; else the text between the white space at both ends, which has none at its ends, whole up to 512 bytes and otherwise up to its last rune start at or before byte 512 |
| Output.TrimSpaceExactly | internal/controllers/incident/machine.go:59 | only white space is trimmed: the output is white space, the trimmed text, white space |
| Output.SpaceExactly | internal/controllers/incident/machine.go:59 | the characters trimmed are those of one to three bytes whose code point has Unicode's White_Space property |
| Output.FirstLenExactly | internal/controllers/incident/machine.go:64 | a character is well-formed exactly in its shortest form, below 0x110000 and no surrogate |
| Output.KeptIsBounded | internal/controllers/incident/machine.go:53-68 | the kept output is a prefix of the trimmed text of at most 512 bytes, all of it when it fits, and empty for exit 0 and 1 |
| Output.KeptIsValid | internal/controllers/incident/machine.go:53-68 | valid UTF-8 (section 4 of RFC 3629) stays valid, and a cut keeps at least 509 bytes |
| Output.TrimSpaceEnds | internal/controllers/incident/machine.go:59 | the trimmed text neither starts nor ends with a space of 1, 2 or 3 bytes |
| IncidentObject.Incident.SetLastCheck | internal/controllers/incident/machine.go:134-147 | in place: a precondition or verify result equal to the recorded one changes nothing, any other and every apply run replaces its entry only |
| IncidentObject.Incident.ClearLastCheck | internal/controllers/incident/machine.go:149-153 | in place: the entry of one script is dropped, the others stay |
| IncidentObject.Incident.EnterVerifying | internal/controllers/incident/machine.go:181-184 | in place: the window starts at the second of the given time and the verify result is dropped |
| IncidentObject.Incident.SetState | internal/controllers/incident/machine.go:186-203 | in place: the state with what entering it clears or starts, and the change it announces |
| IncidentObject.Incident.ApplySpec | internal/controllers/incident/machine.go:207-232 | in place: the new status, the changes and whether spec.applied was acted on, for every state |
| IncidentObject.Incident.Record | internal/controllers/incident/machine.go:237-275 | in place: the new status and the changes of a check result, for every script and exit |
| IncidentObject.Incident.RecordApply | internal/controllers/incident/machine.go:282-297 | in place: the new status and the changes of an apply run; changed is reported exactly when the status differs |
| Machine.CurrentScriptExactly | internal/controllers/incident/machine.go:75-118 | which script is current: an unflagged precondition while Open, a verify while Verifying, each only with a source |
| Incidents.OwnField | internal/controllers/incident/machine.go:120-129 | each script has its own lastChecks field, and setting it leaves the others |
| Lifecycle.StepValid | apis/incident/v1alpha1/types.go:327-329 | every event keeps the three validation rules, verifyingSince only while Verifying, exits in 0..255, outputs of at most 512 bytes and whole-second times |
| Lifecycle.RunValid | apis/incident/v1alpha1/types.go:327-329 | so does every sequence of events, and over all of it Resolved only becomes Closed and Closed is final |
| Lifecycle.MovesAreAnnounced | internal/controllers/incident/machine.go:186-297 | each operation announces exactly one state change when it moves the state, and none otherwise |
| Rounds.RoundAnnounces | internal/controllers/incident/incident.go:240-267 | the changes a reconcile announces lead, one after the other, from the state it read to the state it stores |
| Lifecycle.WindowIsLastStart | internal/controllers/incident/machine.go:181-203 | after any run, verifyingSince is the second of the last entry, re-apply or first windowless verify exit 1, and is set only while Verifying |
| Lifecycle.BackToOpenExactly | internal/controllers/incident/machine.go:259-272 | Verifying goes to Open exactly on a check exit 1 that ended at least the settle window after verifyingSince |
| Lifecycle.SettleWindowSafety | internal/controllers/incident/machine.go:181-184 | over whole runs, a return to Open is a verify exit 1 that ended more than the settle window less one second after the last start of the window |
| Lifecycle.UnknownMovesNothing | internal/controllers/incident/machine.go:234-241 | an unknown check result and an apply run that did not exit 0 change nothing but their own entry |
| Lifecycle.WindowMovesBackExactly | internal/controllers/incident/machine.go:207-232 | the window moves back exactly when a person applies at a time before it |
| Windows.WindowNeverMovesBack | internal/controllers/incident/machine.go:181-184 | in every run of the system in which no run is recorded before it ended, over stored versions that are all Verifying the window never moves back, and it is never ahead of the clock |
| SystemRuns.RunDatedAheadRewindsTheWindow | internal/controllers/incident/checkpod.go:274-277 | a run of the system in which an apply run dated after the clock, from a pod whose end the kubelet did not say, lets a later apply move the window back |
| ApplyRuns.RecordAgainExactly | internal/controllers/incident/machine.go:277-297 | after any events at all, recording the same apply run again changes the status exactly when the incident is Open or Verifying and the latest apply since is another one, or the run exited 0 and the incident is Open or in a missing or older window |
| ApplyRuns.RecordedOnce | internal/controllers/incident/apply.go:402-421 | with no other apply and no reanalysis in between, recording it again changes and announces nothing, for every exit when nothing moved Verifying back to Open, for other exits than 0 even then |
| ApplyRuns.RecordAgainAfterChecks | internal/controllers/incident/machine.go:277-297 | after check results alone, it changes the status exactly when the run exited 0 and moves the incident it finds |
| ApplyRuns.RecordedTwice | internal/controllers/incident/apply.go:404 | a run of events after which the same run does move the incident a second time |
| ApplyRuns.PersonsApplyReplaced | internal/controllers/incident/machine.go:286-288 | a run of events in which the second recording of a failed run replaces a person's newer apply entry |
| History.BlockStart | internal/controllers/incident/machine.go:131-141 | the start of the trailing block of equal exits in a history of runs |
| History.LastChecksFromHistory | internal/controllers/incident/machine.go:131-153 | after any run, a precondition or verify entry is the last exit since it was cleared, with since and output of the first run of its trailing block of equal exits |
| History.ApplyFromHistory | internal/controllers/incident/machine.go:207-232 | after any run, the apply entry is that of the latest apply event since the last reanalysis, by a person or a request |
| History.ReproducedFromHistory | internal/controllers/incident/machine.go:245-258 | the Reproduced condition is the first precondition verdict since the last reanalysis and its time |
| History.StateExactly | internal/controllers/incident/machine.go:207-297 | the state after every event in every state, and that only the writer changes the scripts |
| History.ResolutionFromHistory | internal/controllers/incident/machine.go:213-214 | after any run the resolution is the latest one: by a user in the second of the closing decision, or by verify in the second its exit 0 ended |
| History.PreconditionMovesOnlyReproduced | internal/controllers/incident/machine.go:256-258 | a precondition moves Open to Verifying only with exit 0 and only after an earlier recorded one exited 1 with no reanalysis between |
| History.FlaggedWaitsForAHuman | internal/controllers/incident/machine.go:77-93 | while Reproduced is False nothing is checked, and Open is left exactly for spec.applied, spec.closed, an IncidentApply exit 0 or a reanalysis |
| CheckPods.ReadResult | internal/controllers/incident/checkpod.go:258-293 | the loop over container statuses gives the result function of the pod, the timeout and the time |
| CheckPods.ResultIsStable | internal/controllers/incident/checkpod.go:255-257 | once a pod gives a result it gives the same one at any later time |
| CheckPods.ExitExactly | internal/controllers/incident/checkpod.go:262-291 | a result has an exit, in 0..255, exactly when the pod finished, not on its deadline, with such a code from the script's container |
| CheckPods.GivenUpExactly | internal/controllers/incident/checkpod.go:260-273 | a pod that has not finished gives a result exactly from its creation plus the timeout plus a minute, dated then and without an exit; a finished one always gives one |
| CheckPods.EndOfRun | internal/controllers/incident/checkpod.go:270-291 | which container status decides the time, the exit and the output, what the time is when none does, and what a pod stopped at its deadline gives |
| CheckPods.ResultNotBeforeCreation | internal/controllers/incident/checkpod.go:257-293 | no result is dated before its pod's creation |
| CheckPods.WithoutDashesParts | internal/controllers/incident/checkpod.go:96 | dashes are taken out part by part |
| CheckPods.OnlyDashesGo | internal/controllers/incident/checkpod.go:96 | every dash goes, and nothing else |
| CheckPods.SameNameExactly | internal/controllers/incident/checkpod.go:93-105 | two check names are equal exactly for the same script, the same first twelve characters of the uid without dashes, and the same second, or none |
| CheckPods.SameApplyNameExactly | internal/controllers/incident/checkpod.go:193-195 | two apply names are equal exactly for the same uid up to dashes, and none is a check name |
| Storage.PerformAllConcat | internal/controllers/incident/incident.go:285-318 | two lists of writes in a row are one list, the second one begun only if the first went through |
| Storage.StoppedAtAPrefix | internal/controllers/incident/incident.go:285-318 | writes that do not all go through leave exactly what a prefix of them leaves, up to the first refused or not reached |
| Reconciler.LastRuns.Seen | internal/controllers/incident/incident.go:112-118 | the entry of one incident becomes the later of the two times, no other entry changes |
| Reconciler.LastRuns.Forget | internal/controllers/incident/incident.go:120-124 | one entry is removed |
| Reconciler.SortByCreation | internal/controllers/incident/incident.go:244 | a permutation of the pods ordered by creation |
| Reconciler.External.Observe | internal/controllers/incident/incident.go:220-278 | the loop over the sorted pods leaves the status, memory and plan that the fold over them gives, and answers up to date exactly when the plan writes nothing |
| Reconciler.External.PersistPlan | internal/controllers/incident/incident.go:294-308 | the status goes first, then spec.applied is reset, with early return on a refused write |
| Reconciler.External.DeleteStale | internal/controllers/incident/incident.go:309-313 | the stale pods are deleted in order up to the first failure |
| Reconciler.External.Update | internal/controllers/incident/incident.go:288-318 | the effect on the API server is that of the plan's ordered writes up to the first that is refused or fails |
| Reconciler.ApiServer.CreatePod | internal/controllers/incident/incident.go:358-367 | creating a pod whose name is taken keeps the one that has it |
| Replay.RecordRestAgainExactly | internal/controllers/incident/machine.go:234-275 | recording a list of runs of one script and then any suffix of it again, behind the current-script guard, changes the status exactly when a run of the suffix started, in an incident Verifying without a window, a window it is itself past |
| Replay.ReplayExactly | internal/controllers/incident/incident.go:245-267 | observing any suffix of finished pods again at any later time, whatever the memory, changes and persists the status exactly in that case |
| Replay.ReplayChangesNothing | internal/controllers/incident/incident.go:257-263 | so it changes nothing for every status that has its window while Verifying, whatever the settle window |
| Replay.ReplayNeedsExactly | internal/controllers/incident/machine.go:264-272 | some pod moves an incident Verifying without a window by a replay if and only if the settle window is at most the fraction of a second of the check timeout |
| Rounds.FoldRuns | internal/controllers/incident/incident.go:245-266 | the fold over pods is a legal sequence of check events |
| Rounds.RoundRuns | internal/controllers/incident/incident.go:239-267 | a reconcile's status is a legal run: a decision, then the checks of its pods |
| Rounds.FoldPartition | internal/controllers/incident/incident.go:247-266 | exactly the pods not being deleted end up live or to delete |
| Rounds.LiveIsNotStale | internal/controllers/incident/incident.go:251-265 | the live pod is not one to delete |
| Rounds.LiveIsFirst | internal/controllers/incident/incident.go:252-253 | live is the first pod that still runs when its script is the current one, and is none exactly when there is no such pod |
| Rounds.FoldOne | internal/controllers/incident/incident.go:247-249 | with one pod not being deleted the fold is that pod's visit |
| CompleteRounds.CompleteRound | internal/controllers/incident/incident.go:285-318 | a round that read the newest version and whose writes all go through leaves the observed status stored, spec.applied reset exactly when consumed, no pod but the live one and the started one, and a due check started |
| SystemInvariants.NextKeepsInv | internal/controllers/incident/incident.go:220-318 | every step of the system, from any state, keeps the system invariant |
| SystemTheorems.PersistedStatusesFormAChain | internal/controllers/incident/machine.go:186-297 | in every interleaving, between any two moments the stored status moves by a legal run of decisions, checks, apply runs and reanalyses |
| SystemTheorems.PersistedVersionsValid | apis/incident/v1alpha1/types.go:327-329 | every stored version is valid and follows its predecessor as the transition rule allows |
| SystemTheorems.AtMostOneLivePod | internal/controllers/incident/incident.go:244-318 | in every reachable state at most one check pod is not being deleted, though Incident reads may be stale and any write may be the last |
| SystemTheorems.LivePodIsCurrent | internal/controllers/incident/incident.go:252-269 | the live pod, chosen inside the loop, is of the script that is current after it, and no second check is due |
| Checks.ChecksHaveASource | internal/controllers/incident/incident.go:250-270 | in every run of the system, a live pod, and a check a round starts, is of a script with a source in the status observed |
| Checks.NewPodsHaveASource | internal/controllers/incident/incident.go:358-367 | every pod a step adds is pending, created at that second, and of such a script |
| Checks.NoPodOutlivesItsTime | internal/controllers/incident/checkpod.go:260-269 | in every run of the system, a round deletes every listed pod a minute past the timeout after its creation, and keeps as live only one that is unfinished and short of it |
| Checks.ChecksGoOn | internal/controllers/incident/machine.go:157-177 | in every run of the system, a round that leaves an unflagged precondition while Open or a verify while Verifying, has no live pod, and comes a poll interval after every run reported and the start of the window, starts that script |
| SystemTheorems.DeletedOnlyOncePersisted | internal/controllers/incident/incident.go:285-313 | a finished pod of the current script is deleted by the reconciler only once a stored version is the status its result gives, with its exit |
| SystemTheorems.StoredVersionsReplay | internal/controllers/incident/incident.go:257-267 | a reconcile of any version ever stored records finished pods of one script, and one of what it makes, at any later time and with any suffix of them, persists nothing |
| SystemTheorems.HumanDecisionsAreNeverLost | internal/controllers/incident/machine.go:207-232 | spec.closed is never overwritten, and a person's spec.applied is reset only right after a version that is what Observe makes, at some time, of a version still holding it, consuming it, with the apply entry of that time |
| SystemTheorems.ActedOnNoSooner | internal/controllers/incident/machine.go:220-228 | the apply entry of a version that acts on a person's edit is of a time no earlier than any at which the edit was not yet stored |
| SystemTheorems.ActedTwiceExactly | internal/controllers/incident/incident.go:294-308 | one spec.applied is acted on by a second round exactly when its reset does not come right after the first round's status and the incident is still Open or Verifying |
| SystemTheorems.ClosedIsObeyed | internal/controllers/incident/machine.go:209-216 | a reconcile that read spec.closed decides Closed and starts no check |
| SystemTheorems.ChecksArePaced | internal/controllers/incident/checkpod.go:93-105 | a check starts at least a poll interval after every run this process recorded and after verifyingSince, and its number is greater than each of theirs |
| SystemTheorems.RetriedCreateReusesName | internal/controllers/incident/checkpod.go:93-105 | two starts of one script with the same runs reported before them and the same window have the same name, so the second adds no pod beside the first |
| Stay.VerifyRunsAreBounded | internal/controllers/incident/machine.go:259-272 | in every stretch of a run of the system that is one stay in Verifying entered from Open, as `Stay.StayStretch` says, the k-th recorded verify run ends at least k poll intervals after verifyingSince, and at most ceil(settle window / poll interval) of them exit 1; with a verify pod left of an earlier stay, k - 1 intervals and at most one more |
| SystemRuns.LeftoverRunInNewStay | internal/controllers/incident/incident.go:309-313 | a run of the system in which a delete fails after the return to Open, an IncidentApply enters Verifying, and the old pod's run is the first of the stay |
| OldRuns.OldRunRecordedExactly | internal/controllers/incident/incident.go:257-262 | in every reachable state, a round in window w reports a run of a pod created before w exactly when it lists such a verify pod, done; its exit 0 resolves and its exit 1 reopens as any other's |
| OldRuns.EarlyStartIsForAnotherWindow | internal/controllers/incident/machine.go:157-177 | a check started less than a poll interval into the newest window is for another window, and its round read an older version |
| SystemRuns.InFlightRunInNewWindow | internal/controllers/incident/incident.go:257-262 | a run of the system in which a check begun before a person applies again, and ended no sooner, resolves the incident |
| SystemRuns.StaleVersionStartsEarly | internal/controllers/incident/machine.go:157-177 | a run of the system in which a round that reads a version of the window before starts a check early |
| SystemRuns.AppliedTwice | internal/controllers/incident/incident.go:294-308 | a run of the system in which one spec.applied is acted on twice and restarts the window |
| Requests.AdmittedExactly | internal/controllers/incident/apply.go:553-622 | the exact condition of admission, which script runs, and that a retry comes only from a failed read |
| Requests.DecidedByTheFirst | internal/controllers/incident/apply.go:553-622 | of the nine checks in order the first that does not pass decides: a failed read retries, anything else refuses, and with none the request is admitted |
| Requests.ApplyExternal.EndRun | internal/controllers/incident/apply.go:506-514 | in place: phase, exit, output and the second of the end, with the plan to store and announce them |
| Requests.ApplyExternal.ObserveUnseen | internal/controllers/incident/apply.go:313-333 | in place: a request without a phase starts Running from its pod, is refused after an interrupted creation, is admitted, refused, or retried |
| Requests.ApplyExternal.ObserveRun | internal/controllers/incident/apply.go:335-341 | in place: a running request fails when its pod is gone and ends with its pod's result |
| Requests.ApplyExternal.Observe | internal/controllers/incident/apply.go:288-354 | in place: status, plan and answer for every phase, reads and deletion |
| Requests.ExitComesWithRun | internal/controllers/incident/apply.go:482-500 | an exit is stored only with the run to record on the incident that gave it |
| Requests.ExpiredExactly | internal/controllers/incident/apply.go:343-353 | a finished request is expired exactly from its end plus the TTL, its pod is deleted exactly while present, and its status is left alone |
| Requests.AnswersExactly | internal/controllers/incident/apply.go:294-333 | when a reconcile stores a status, when it asks for a creation, and when it fails |
| Requests.DeletedExactly | internal/controllers/incident/apply.go:298-304 | a request being deleted is left as it is, and exists outside exactly as long as its pod is there |
| Requests.ObserveMovesForward | internal/controllers/incident/apply.go:313-353 | phases only move forward, terminal ones stay as they are, a refusal needs the pod to be absent, a creation is asked for exactly for an admitted request not tried before |
| Requests.DirtyExactly | internal/controllers/incident/apply.go:313-341 | a reconcile writes a status only for a request it read unfinished, always with another phase, which the pod it found decides |
| Requests.DirtyStatus | internal/controllers/incident/apply.go:466-514 | the whole status a reconcile stores: script, start, exit, end, the log that was read as output, and the run to record, by whether there is a pod and it has a result |
| HandshakeTheorems.PodCreatedAtMostOnce | internal/controllers/incident/apply.go:375-400 | over any run, with crashes at any point and any version read, the pod is created at most once |
| HandshakeTheorems.RecordedBeforeStored | internal/controllers/incident/apply.go:402-421 | in any such run, every stored version with an exit or a success comes after the write that records the run |
| Recordings.SuccessIsOnTheIncident | internal/controllers/incident/apply.go:402-421 | with both controllers running, each step of either interleaved, a stored success is among its incident's events as an apply run with exit 0 that ended in the second stored, unless the recording read the incident neither Open nor Verifying |
| HandshakeTheorems.PhasesNeverGoBack | internal/controllers/incident/apply.go:313-348 | in any such run the stored phase goes back neither to none nor from a terminal one to Running |
| HandshakeTheorems.TerminalOverwrittenExactly | internal/controllers/incident/apply.go:416-421 | a stored terminal phase changes at a step if and only if it is the patch of a reconcile that read an unfinished version and found the pod gone, giving Failed or Refused where another is stored, or found exit 0 in a pod given up as overdue |
| HandshakeTheorems.SuccessOverwrittenExactly | internal/controllers/incident/apply.go:335-337 | a stored success changes exactly at the patch of a reconcile that read an unfinished version and found the pod gone |
| HandshakeTheorems.RefusedExactly | internal/controllers/incident/apply.go:319-331 | a patch stores a refusal exactly when its reconcile read no phase and found no pod |
| HandshakeTheorems.UpdateGoesThrough | internal/controllers/incident/apply.go:405-438 | an update whose writes all go through has recorded the run, patched the status, marked the pod and, past its TTL, the request as deleted, and nothing else |
| HandshakeEnds.FinishedPatched | internal/controllers/incident/apply.go:416-421 | what a patch leaves of a finished request, field by field: the end its reconcile found; without a pod everything else but the phase stays, with one its exit and the log read are stored, if there are any |
| HandshakeEnds.EndMovesExactly | internal/controllers/incident/apply.go:343-348 | the end of a finished request, from which its TTL runs, moves at a step exactly when the step is a patch whose reconcile found another end |
| HandshakeTheorems.RefusedForGood | internal/controllers/incident/apply.go:313-332 | whatever is read, a request refused before it got a pod stays refused and never gets one |
| HandshakeFresh.PhasesMoveForward | internal/controllers/incident/apply.go:343-348 | with the newest version read, the stored phase moves forward only, and a terminal status is final |
| HandshakeFresh.RefusedWithoutARun | internal/controllers/incident/apply.go:319-331 | with the newest version read, a request is refused only if its pod was never created |
| HandshakeRuns.SuccessCanTurnFailed | internal/controllers/incident/apply.go:335-337 | a run, step by step from a new request, that ends with Failed stored over a success with exit 0 |
| HandshakeRuns.SuccessCanTurnRefused | internal/controllers/incident/apply.go:319-331 | a run that ends with Refused stored over a success, the pod created |
| Names.LessTransitive | internal/controllers/incident/apply.go:647 | the order of names is transitive |
| Names.LessTotal | internal/controllers/incident/apply.go:647 | any two names compare |
| Names.LessExactly | internal/controllers/incident/apply.go:647 | a name comes first exactly when it is a proper prefix or has the smaller character where the two first differ |
| Arbitration.Busy | internal/controllers/incident/apply.go:626-641 | the scan finds the first request in the list that goes before, and finds none exactly when there is none |
| Arbitration.EarlierGoesFirst | internal/controllers/incident/apply.go:631-648 | an unfinished request for the same incident that runs, was created in an earlier second, or in the same second with the smaller name, goes first, and the scan finds one |
| Arbitration.LaterNeverGoesFirst | internal/controllers/incident/apply.go:631-648 | and no other request goes first |
| Arbitration.OlderIsAnOrder | internal/controllers/incident/apply.go:643-648 | older is a strict total order on requests of different names |
| Arbitration.ExactlyTheOldestIsFree | internal/controllers/incident/apply.go:624-641 | of the waiting requests for an incident with none running exactly the oldest is not busy, and there is one |
| Arbitration.AdmittedAmong | internal/controllers/incident/apply.go:582-587 | a request that reads a list is admitted exactly when no request of the list goes first and the rest of admission passes |
| Arbitration.AtMostOneAdmitted | internal/controllers/incident/apply.go:582-587 | over any run in which no request is created older than one admitted and still without a pod, no two unfinished requests for one incident have both passed admission |
| Arbitration.AtMostOneInStampOrder | internal/controllers/incident/apply.go:643-648 | so it is in every run whose creation stamps never go back, with names that increase within a second |
| Arbitration.FreeBesideAStartingOne | internal/controllers/incident/apply.go:643-648 | a request created beside an admitted one that is still without a pod is free if and only if it is older than it |
| Arbitration.SameSecondBothAdmitted | internal/controllers/incident/apply.go:643-648 | a run without that order, in which both of two requests of one second are admitted and run |
| Requeue.WakesAdvance | internal/controllers/incident/apply.go:200-216 | each wake-up of a finished request is at least a second after the one before |
| Requeue.FirstSeenExpired | internal/controllers/incident/apply.go:200-216 | the number of wake-ups until a finished request is past its TTL, never before it, and less than a second after it |
| Requeue.LateWakesExpire | internal/controllers/incident/apply.go:200-216 | wake-ups that come late expire it at the same number at the latest, late by less than a second and the last delay |
| Requeue.DeletedAtThatWake | internal/controllers/incident/apply.go:343-348 | the reconcile at that wake-up, and none before it, finds the request expired |
| Requeue.WokenWhenDue | internal/controllers/incident/incident.go:126-143 | the wake-up asked for while a check is not yet due finds it due, less than a second late |
| Requeue.FirstSeenDue | internal/controllers/incident/incident.go:126-143 | whenever the wait begins, the number of the wake-up at which a check is first due, and less than a second late |
| Requeue.HooksExactly | internal/controllers/incident/apply.go:200-216 | in every other case both hooks pass the poll interval on, and neither asks for less than a second, or more than an hour or the poll interval |
| TailBuffer.TailBuffer.Write | internal/controllers/incident/apply.go:129-141 | the buffer is the last max bytes of everything written, and every byte is reported written |
| TailBuffer.LastBytesExactly | internal/controllers/incident/apply.go:129-141 | the kept bytes are an end of everything written, as long as it allows |
| TailBuffer.SplitsDoNotMatter | internal/controllers/incident/apply.go:129-141 | the kept bytes depend on what was written, not on how it was split |
| CheckReader.Rules | internal/controllers/checkreader/checkreader.go:110-134 | the nested loops give canonical rules that grant exactly the readable facts, neither excluded nor subresources |
| CheckReader.GroupExactly | internal/controllers/checkreader/checkreader.go:119-122 | the group of g/v is g, of a version alone the core group, and with more slashes there is none |
| CheckReader.ReadableExactly | internal/controllers/checkreader/checkreader.go:124-126 | a resource is granted exactly when it is no subresource, not secrets, and has get or list |
| CheckReader.WithKept | internal/controllers/checkreader/checkreader.go:136-162 | canonical rules that grant what is wanted and what the current ones grant in failed groups with nothing discovered |
| CheckReader.Sorted | internal/controllers/checkreader/checkreader.go:164-177 | whatever the order of the map: groups and resources strictly increasing, one rule a group, the same facts |
| CheckReader.Refresher.Sync | internal/controllers/checkreader/checkreader.go:73-102 | the role after a sync, that an error changes nothing, and that it writes exactly when the rules differ |
| CheckReader.CanonicalUnique | internal/controllers/checkreader/checkreader.go:164-177 | canonical rules that grant the same facts are equal |
| CheckReader.SameFacts | internal/controllers/checkreader/checkreader.go:113-132 | lists reordered, repeated or split state the same facts |
| CheckReader.SameFactsSameRules | internal/controllers/checkreader/checkreader.go:74-92 | two discoveries with the same facts and the same failed groups, in any order, refresh a role to equal rules |
| CheckReader.SecondSyncWritesNothing | internal/controllers/checkreader/checkreader.go:74-95 | a second sync with an alike discovery, its failures in any order, computes the rules the role has |
| CheckReader.NothingHarmfulGranted | internal/controllers/checkreader/checkreader.go:104-112 | over any refreshes from an empty role nothing ever grants secrets or a subresource |
| CheckReader.RefreshedGrantsReads | internal/controllers/checkreader/checkreader.go:136-177 | whatever the role held, after a refresh every rule has one group, the verbs get, list and watch only, and no secrets |
| CheckReader.GroupAfterRefresh | internal/controllers/checkreader/checkreader.go:136-162 | what a refresh grants in a group, exactly: what was discovered of it, or what it had when nothing was and it failed |
| CheckReader.HalfFailedGroupLosesRules | internal/controllers/checkreader/checkreader.go:149-153 | a group with a discovered version does not keep what only its failed version served |

## Left out

- API errors other than a conflict, a taken name and a call that fails: their kinds and texts.
- ConfigMaps and Secrets: a started check is its pod; the ones of a deleted incident are only counted.
- Events, logs, plan and status messages; the text of durations in a check's output.
- Pod sandboxes, templates, owner references and labels; a check pod carries its script.
- Pod names as strings: a name is its incident, script and number, so incidents whose identifiers share their first twelve characters are not told apart here either.
- Credentials, certificates and access reviews inside admission: each is an answer that admits, refuses or fails.
- The Ready, Available and Deleting conditions.
- The Delete path of an Incident: pods deleted by others stand for it in the system.
- Requeueing of a request that has not finished: the poll interval is passed on.
- The analysis the writer stores, except the state moves it makes.
- The order of pods created in the same second: sorting gives any order that is by creation.
- Names and API lists of one incident only: the system has one Incident, the handshake one request; arbitration is between any number of requests.
- Stay.VerifyRunsAreBounded: a stay whose rounds read no Verifying version of an earlier stay, and whose window nothing restarts; a version of an earlier window can start a check early (`SystemRuns.StaleVersionStartsEarly`), and a run in flight at a restart is recorded in the new window (`SystemRuns.InFlightRunInNewWindow`).
- Recordings.SuccessIsOnTheIncident: the incident is never deleted; a recording that finds it gone counts like one that reads it closed.
