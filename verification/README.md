# hanzoai/deploy in Dafny

A model of the parts of `hanzoai/deploy` that decide what happens to a fleet of
applications, and proofs about them. Five components are modelled:

- **Progressive rollout** of an ApplicationSet (`Appset`, `Selection`, `Quota`, `Waves`,
  `Rollout`, `Runs`, `Pass`, `Reconcile`, `ReverseDeletion`): which step selects which
  application, the state machine Waiting → Pending → Progressing → Healthy, wave gating,
  the `maxUpdate` quota, the persisted status list, whole reconciles, runs of passes under
  arbitrary changes to the applications, and deletion in reverse order.
- **The plugin message codec** (`Bits`, `Varint`, `Wire`, `Groups`, `Malformed`, `Lengths`,
  `Messages`, `Reencode`, `Marshal`, `Layout`): varints, sizes, the back-to-front encoders, the
  decoders and the skipper of unknown fields, following the Protocol Buffers encoding (base 128 varints, message structure,
  length-delimited records, groups).
- **The application controller** (`Operation`, `OperationRuns`, `AutoSync`, `Hooks`,
  `Cascade`, `Finalizers`, `FinalizerList`, `Decimal`, `Refresh`): the life of a sync
  operation, the guard of automated sync, the deletion protocol with its hooks and its
  cascade, and the register of refresh requests.
- **Repair of collateral damage** to a normalized target manifest (`Restore`).
- **The repository mirror** (`MirrorPlan`, `Mirror`): planning, and fast-forward-only
  reconciliation over a commit graph that others extend at the same time.

Code that updates state in place is modelled by methods with loops, classes and arrays,
each proved against properties or against a specification function; what the source
promises is then proved of that function as lemmas. The API server, git, other writers,
clocks and the sync engine are an environment: their answers are parameters, or values
chosen arbitrarily inside the methods that stand for them (`:= *`), and whatever is proved
holds for every choice. Times are readings of one clock.

Assumptions about the environment, beyond what each contract states:

- A status write reaches the server in the end (`setOperationState` retries without limit).
- A failed `git push` has changed nothing; other parties only fast-forward forge branches
  and do not delete them; `merge-base --is-ancestor` answers truthfully with status 0 or 1.
- During a call of the reverse deletion, and between reading and writing finalizers, other
  parties only remove applications or mark them, and do not touch the finalizers.
- Applications that exist under one ApplicationSet have distinct names.
- Automated sync decides on the stored application: the copy it reads, which every write of
  the controller is written back to, is not older than the last operation.
- A status write of a pass that fails outright ends the reconcile; the passes modelled are
  those that go on.

Where the code does not do what it promises, the code is kept, a lemma gives an input, and
another says exactly when the promise is kept:

- Every index of the promotion step is in range: not if the first status write brings back
  an ApplicationSet from which steps, but not all of them, were removed in the meantime
  (`Quota.UpdateProgress`, `Pass.InRangeIff`, `Pass.RemovedStepsPanic`).
- A sync operation is attached only to an application that was Pending when the reconcile
  began, and what is written has automated sync off: not if recording a validation error
  re-read the ApplicationSet in between (`Reconcile.PendingAtStartIff`,
  `Reconcile.AutomationOffIff`, `Reconcile.SyncedInThePassThatPromoted`,
  `Reconcile.StrategyDroppedInBetween`).
- A user's termination request is honoured: not if it lands in the pass that schedules a
  retry, nor if it was not there when the pass re-read the operation and the pass then
  writes that the attempt still runs (`OperationRuns.TerminationLostIff`,
  `OperationRuns.TerminationLost`, `OperationRuns.TerminationOverwritten`).
- At most Limit + 1 attempts: not for Limit 0 on top of an earlier operation state with a
  limit still unspent, because the merge patch leaves zero values out
  (`OperationRuns.BoundedIffLimitKept`, `OperationRuns.OneTooMany`).
- At most one automated operation for a fixed revision: not with several sources, nor with
  retries that refresh the revision (`AutoSync.AtMostOneIff`, `AutoSync.ForgetsRevisions`,
  `AutoSync.ForgetsOnRetry`).
- Clean-up deletes hooks that name no delete policy: it never does
  (`Hooks.CleanupDependsOnPolicy`, `Hooks.UnannotatedHookStays`).

## Model

| member | source | states |
|---|---|---|
| `Appset.FindStatus` | applicationset/utils/utils.go:634-642 | the position of the first entry of a name, and -1 exactly when there is none |
| `Selection.LabelMatched` | applicationset/progressivesync/progressive_sync.go:248-263 | an error exactly for an operator other than In and NotIn; In holds exactly of the listed values and NotIn exactly of the others |
| `Selection.MatchStep` | applicationset/progressivesync/progressive_sync.go:195-218 | a step selects an application exactly when its labels have a listed value for every In, no listed value for any NotIn, and no label for any other operator; an unknown operator is reported once for each step |
| `Selection.PlaceApp` | applicationset/progressivesync/progressive_sync.go:194-236 | one application is appended to exactly the steps that select it and to no other, with its step map, duplicates and issues |
| `Selection.BuildAppDependencyList` | applicationset/progressivesync/progressive_sync.go:173-246 | step i lists exactly the applications all its expressions accept; for distinct names the least selecting step, the duplicates with the full ascending list of steps, the empty steps, and every (step, operator) issue once |
| `Quota.Bound` | applicationset/progressivesync/progressive_sync.go:536-565 | an integer is the bound itself; a percentage of at least one application rounds down; anything less and text that does not parse is one, unless written 0% |
| `Quota.PercentOf` | applicationset/progressivesync/progressive_sync.go:536-537 | a percentage is exactly the integer spelled before the percent sign |
| `Quota.CountEntries` | applicationset/progressivesync/progressive_sync.go:505-520 | the two counters hold, for each step, its entries and those in flight, unselected applications in bucket 0; it fails exactly when a recorded application has its step outside the steps in force |
| `Quota.CountsAre` | applicationset/progressivesync/progressive_sync.go:508-520 | the counts are numbers of entries: those of the step, an application without a step being of the first, those of them Pending or Progressing, and those Waiting and released |
| `Quota.UpdateProgress` | applicationset/progressivesync/progressive_sync.go:500-598 | exactly the entries that fit become Pending, with the time and message of the move, and nothing else changes; without steps the list is cleared; an index is out of range exactly when there are steps and some recorded application has its least step, 0 when unselected, beyond them |
| `Quota.PromotesFirst` | applicationset/progressivesync/progressive_sync.go:569-588 | among the first n entries of a bucket exactly min(eligible, max(0, bound - in flight)) are promoted, for every n, so they are the first ones |
| `Quota.DecidesPromotion` | applicationset/progressivesync/progressive_sync.go:568-588 | the running counter of the loop decides exactly the promotions that the closed form names |
| `Quota.CountAfter` | applicationset/progressivesync/progressive_sync.go:576-588 | in-flight counts grow by exactly the promotions |
| `Quota.PassWithinBound` | applicationset/progressivesync/progressive_sync.go:568-588 | a pass that promotes ends within the bound, and promotes nothing exactly when nothing is eligible or the bound is reached |
| `Quota.IdleStepMoves` | applicationset/progressivesync/progressive_sync.go:562-575 | an idle step with something eligible stalls exactly when its bound is an integer below 1 or the text 0% |
| `Quota.ZeroPercent` | applicationset/progressivesync/progressive_sync.go:563-565 | 0% is the bound zero whatever the number of applications |
| `Waves.FirstBlocked` | applicationset/progressivesync/progressive_sync.go:422-466 | every step before it is settled and it is not |
| `Waves.GetAppsToSync` | applicationset/progressivesync/progressive_sync.go:422-466 | the released set is the union of the steps up to and including the first that has an application missing or not Healthy |
| `Waves.CompletedSteps` | applicationset/progressivesync/progressive_sync.go:604-611 | for every step number, whether all recorded entries of the step are Healthy |
| `Waves.GetProgressingCondition` | applicationset/progressivesync/progressive_sync.go:600-644 | the condition names the first step with a recorded entry that is not Healthy, or completion when there is none, and is absent without a rolling sync |
| `Waves.BuiltAgrees` | applicationset/progressivesync/progressive_sync.go:220-234 | the step map gives every listed application the least step that lists it |
| `Waves.ReportsFirstUnhealthy` | applicationset/progressivesync/progressive_sync.go:600-644 | with earlier steps done, a step is reported done exactly when none of its existing applications is unhealthy, even when selected by several steps |
| `Waves.ReportMatchesGate` | applicationset/progressivesync/progressive_sync.go:422-466 | the step reported is the step the gate stopped at when every listed application exists, and completion is reported exactly when all existing ones are Healthy |
| `Waves.PromotionKeepsHealth` | applicationset/progressivesync/progressive_sync.go:576-588 | promotion changes no one's health, so gate and report read the same |
| `Rollout.NextStatus` | applicationset/progressivesync/progressive_sync.go:292-408 | for each of the four statuses, exactly when an entry ends the pass in it, with time, message, revisions and step |
| `Rollout.EvaluateStatuses` | applicationset/progressivesync/progressive_sync.go:277-411 | entry i of the result is what becomes of application i, under its name and with its step counted from one, or -1 without a step |
| `Rollout.FirstEntry` | applicationset/progressivesync/progressive_sync.go:292-330 | an application without an entry gets one of this moment and its revisions: Waiting with the message that none was found, unless it is synced or its spec is about to change |
| `Rollout.DesiredMap` | applicationset/progressivesync/progressive_sync.go:281-285 | the last desired application of a name gives its spec |
| `Rollout.SortByName` | applicationset/controllers/applicationset_controller.go:1175-1180 | a permutation in name order |
| `Rollout.SetStatuses` | applicationset/controllers/applicationset_controller.go:1133-1200 | the old list is kept exactly when the lengths agree and status, step and message of every entry do; otherwise the new one is stored, sorted by name; either way whatever was computed, its message included, is found in it |
| `Rollout.PersistedEntries` | applicationset/controllers/applicationset_controller.go:1139-1180 | whether or not a list is stored, each entry kept stands for one computed entry of the same name, status, step and message, and the names are the computed ones |
| `Runs.EveryEntryIsEarned` | applicationset/progressivesync/progressive_sync.go:277-419 | over every run, each list names no application twice and each entry has a transition time, is Pending only after its application was found Waiting and released, and Healthy only after it was observed Synced and Healthy at the recorded revisions |
| `Runs.NeverReadsMissingTime` | applicationset/progressivesync/progressive_sync.go:366-371 | in every reachable state, whatever is observed next, the dereferenced transition time exists |
| `Runs.ObservationKeeps` | applicationset/progressivesync/progressive_sync.go:277-419 | after an observation there is one entry for each application with its current step; Pending ones were Pending, Healthy ones were observed Synced and Healthy now or were Healthy with revisions and spec unchanged |
| `Runs.AdvanceKeeps` | applicationset/progressivesync/progressive_sync.go:500-598 | a promotion step changes only released Waiting entries, to Pending |
| `Pass.PerformProgressiveSyncs` | applicationset/progressivesync/progressive_sync.go:77-112 | the pass evaluates, stores, gates, promotes and stores again under whatever strategy each write brings back; it ends early exactly on an index out of range; otherwise, with every selected application in existence, it reports exactly the step the gate stopped at |
| `Pass.StrategyByWrite` | applicationset/controllers/applicationset_controller.go:1182-1200 | the strategy of a pass changes only with a status write that is made, and then to what that brought back |
| `Pass.PassIsTwoSteps` | applicationset/progressivesync/progressive_sync.go:77-112 | every pass that gets through is an observation followed by a promotion, or by a clearing of the list, of a run, so the theorems on runs hold for it |
| `Pass.NewlyPendingIsCleared` | applicationset/progressivesync/progressive_sync.go:77-112 | an entry a pass makes Pending belongs to a step before which every application exists and is Healthy |
| `Pass.KeptStepsAreEnough` | applicationset/controllers/applicationset_controller.go:1182-1200 | a pass whose strategy keeps its number of steps, or loses all of them, stays in range |
| `Pass.RemovedStepsPanic` | applicationset/progressivesync/progressive_sync.go:505-515 | for any n and 0 < m < n, a pass in which a user leaves m of n steps and the step map of the start runs out of range |
| `Pass.InRangeIff` | applicationset/progressivesync/progressive_sync.go:499-533 | every pass that goes from n steps to m stays in range exactly when m is zero or not below n |
| `Reconcile.SyncDesiredApplications` | applicationset/progressivesync/progressive_sync.go:686-713 | length and order are kept, each returned application has no automated policy or one with enabled false, and an operation is attached exactly to released applications that are Pending |
| `Reconcile.SyncApplication` | applicationset/progressivesync/progressive_sync.go:716-747 | only the operation changes; it prunes exactly when asked to and a sync policy exists; its retry limit is that of the policy, or 5, and its sync options are those of the policy |
| `Pass.ReleasedIsCleared` | applicationset/progressivesync/progressive_sync.go:422-466 | an application is released exactly when one of its steps has only existing, Healthy applications before it |
| `Reconcile.ReconcileRollout` | applicationset/controllers/applicationset_controller.go:260-336 | the reconcile of a pass; an operation is attached exactly to released applications that the statuses read have Pending, and before one of whose steps every application exists and is Healthy; it ends early exactly when its pass does |
| `Reconcile.PendingAtStartIff` | applicationset/controllers/applicationset_controller.go:297-336 | over all reconciles, whoever is synced was Pending at the start exactly when validation finds no error |
| `Reconcile.SyncedInThePassThatPromoted` | applicationset/controllers/applicationset_controller.go:566-588 | whatever applications fail validation, there is a reconcile that promotes an application Waiting at its start, stores it, reads it back and syncs it |
| `Reconcile.AutomationOffIff` | applicationset/controllers/applicationset_controller.go:328-335 | over all reconciles, what is written has automated sync off exactly when validation finds no error |
| `Reconcile.StrategyDroppedInBetween` | applicationset/controllers/applicationset_controller.go:328-335 | whatever applications fail validation, there is a reconcile that writes one with automated sync on |
| `ReverseDeletion.ReverseOrder` | applicationset/progressivesync/progressive_sync.go:124-134 | exactly the selected applications, last step first |
| `ReverseDeletion.PerformReverseDeletion` | applicationset/progressivesync/progressive_sync.go:114-170 | an accepted deletion comes when no application of a later step is there, at most one a call, completion only when no selected application is left, and each error for its own reason |
| `ReverseDeletion.CallRepeatedly` | applicationset/progressivesync/progressive_sync.go:114-170 | over every sequence of calls, each with its own strategy and with arbitrary changes in between, every deletion was in reverse order for the call that made it, and no call made two |
| `Bits.OrDisjoint` | cmpserver/apiclient/plugin.pb.go:1502-1502 | or-ing a value shifted beyond another adds it |
| `Varint.SovIsLength` | cmpserver/apiclient/plugin.pb.go:1482-1484 | the closed form of the size is the number of bytes of the encoding |
| `Varint.GroupAt` | cmpserver/apiclient/plugin.pb.go:1287-1297 | byte i holds the i-th group of seven bits, and its top bit says whether another follows |
| `Varint.EncodeVarintPlugin` | cmpserver/apiclient/plugin.pb.go:1287-1297 | the encoding ends at the offset, begins where it returns, and no other byte changes |
| `Varint.ReadEncoded` | cmpserver/apiclient/plugin.pb.go:1492-1507 | reading an encoded 64-bit value gives it back and stops at its end, whatever follows |
| `Varint.ReadVarint` | cmpserver/apiclient/plugin.pb.go:1492-1507 | the decoding loop computes the specification, for every byte string and start |
| `Wire.SkipPlugin` | cmpserver/apiclient/plugin.pb.go:2391-2468 | for every byte string the loop terminates in range, with the wrap-around checks, and computes the specification |
| `Wire.SkipLocal` | cmpserver/apiclient/plugin.pb.go:2391-2468 | skipping depends only on the bytes skipped |
| `Wire.ParseField` | cmpserver/apiclient/plugin.pb.go:1488-1608 | one field of any input: the error the source returns, or a field that ends further on and within the input |
| `Wire.Unmarshal` | cmpserver/apiclient/plugin.pb.go:1488-1608 | for every byte string and message type the loop makes progress, stays in range, and on success has consumed the whole input |
| `Wire.ReadsField` | cmpserver/apiclient/plugin.pb.go:1488-1608 | an encoded declared field is read back at once, wherever it stands |
| `Wire.DecodedUnknown` | cmpserver/apiclient/plugin.pb.go:1587-1600 | the unrecognized bytes of anything decoded are a sequence of unknown fields |
| `Wire.DecodedBody` | cmpserver/apiclient/plugin.pb.go:1488-1608 | whatever every field that is set keeps is true of the body of anything decoded |
| `Wire.RoundTripIff` | cmpserver/apiclient/plugin.pb.go:889-1608 | for any message type, decoding undoes encoding exactly when the unrecognized bytes are unknown fields and setting the fields rebuilds the body |
| `Groups.SkipsItem` | cmpserver/apiclient/plugin.pb.go:2391-2468 | every well-formed record, groups nested to any depth included, is skipped exactly |
| `Groups.RecordsAreUnknown` | cmpserver/apiclient/plugin.pb.go:2391-2468 | any sequence of well-formed records with undeclared numbers is accepted as unrecognized bytes |
| `Malformed.UnterminatedVarint` | cmpserver/apiclient/plugin.pb.go:1492-1507 | a varint without a last byte is an unexpected end, or an overflow from ten bytes on whatever follows |
| `Malformed.BadTag` | cmpserver/apiclient/plugin.pb.go:1508-1518 | a tag that ends a group, has number zero, has not the wire type declared for its number, or has one that does not exist, each gives its own error |
| `Malformed.BadLength` | cmpserver/apiclient/plugin.pb.go:1519-1545 | a length that does not fit the rest of the input is an unexpected end, or an invalid length where adding it overflows |
| `Lengths.ReadLength` | cmpserver/apiclient/plugin.pb.go:1492-1507 | a value is written in no more bytes than it was read from |
| `Lengths.FieldLength` | cmpserver/apiclient/plugin.pb.go:1488-1608 | a field read is of a declared kind, and is written in no more bytes than it was read from |
| `Lengths.DecodedLength` | cmpserver/apiclient/plugin.pb.go:1488-1608 | for any message type whose fields, once set, add no more than their own encoding, what is decoded is written in no more bytes than were read |
| `Messages.EnvRoundTrip` | cmpserver/apiclient/plugin.pb.go:1809-1923 | decoding undoes encoding exactly for valid values |
| `Messages.ManifestRoundTrip` | cmpserver/apiclient/plugin.pb.go:1924-2038 | decoding undoes encoding exactly for valid values |
| `Messages.RepositoryRoundTrip` | cmpserver/apiclient/plugin.pb.go:2039-2124 | decoding undoes encoding exactly for valid values |
| `Messages.FileRoundTrip` | cmpserver/apiclient/plugin.pb.go:2215-2299 | decoding undoes encoding exactly for valid values |
| `Messages.PluginConfigRoundTrip` | cmpserver/apiclient/plugin.pb.go:2300-2390 | decoding undoes encoding exactly for valid values |
| `Messages.MetadataRoundTrip` | cmpserver/apiclient/plugin.pb.go:1609-1808 | decoding undoes encoding exactly when the value and each nested entry is valid |
| `Messages.RequestRoundTrip` | cmpserver/apiclient/plugin.pb.go:1488-1608 | decoding undoes encoding exactly for valid values, whichever of the two requests is set |
| `Layout.EnvBytes` | cmpserver/apiclient/plugin.pb.go:1049-1073 | the bytes of an entry: tag 0xa before the name and 0x12 before the value, each with its length and left out when empty |
| `Layout.ManifestBytes` | cmpserver/apiclient/plugin.pb.go:1090-1116 | the bytes of a manifest response: 0xa before each manifest, 0x12 before the source type |
| `Layout.MetadataBytes` | cmpserver/apiclient/plugin.pb.go:982-1032 | the bytes of the metadata: tags 0xa, 0x12, 0x1a, 0x20 and 0x2a, in that order, each entry as a nested message |
| `Layout.FileBytes` | cmpserver/apiclient/plugin.pb.go:1221-1238 | the bytes of a file chunk: 0xa before the chunk |
| `Layout.RepositoryBytes` | cmpserver/apiclient/plugin.pb.go:1133-1164 | two bytes for each flag that is set, 0x8 for supported and 0x10 for discovery enabled |
| `Layout.PluginConfigBytes` | cmpserver/apiclient/plugin.pb.go:1255-1285 | two bytes for each flag that is set, 0x8 for discovery configured and 0x10 for git credentials |
| `Layout.RequestBytes` | cmpserver/apiclient/plugin.pb.go:904-965 | 0xa before the metadata or 0x12 before the file, and nothing for a nil one |
| `Reencode.DecodedEnv` | cmpserver/apiclient/plugin.pb.go:1809-1923 | whatever is accepted is valid, takes no more bytes to write than were read, and decoding those gives it back |
| `Reencode.DecodedManifest` | cmpserver/apiclient/plugin.pb.go:1924-2038 | whatever is accepted is valid, takes no more bytes to write than were read, and decoding those gives it back |
| `Reencode.DecodedRepository` | cmpserver/apiclient/plugin.pb.go:2039-2124 | whatever is accepted is valid, takes no more bytes to write than were read, and decoding those gives it back |
| `Reencode.DecodedFile` | cmpserver/apiclient/plugin.pb.go:2215-2299 | whatever is accepted is valid, takes no more bytes to write than were read, and decoding those gives it back |
| `Reencode.DecodedPluginConfig` | cmpserver/apiclient/plugin.pb.go:2300-2390 | whatever is accepted is valid, takes no more bytes to write than were read, and decoding those gives it back |
| `Reencode.DecodedMetadata` | cmpserver/apiclient/plugin.pb.go:1609-1808 | whatever is accepted is valid, nested messages included, takes no more bytes to write than were read, and decoding those gives it back |
| `Reencode.DecodedRequest` | cmpserver/apiclient/plugin.pb.go:1488-1608 | whatever is accepted is valid, nested messages included, takes no more bytes to write than were read, and decoding those gives it back |
| `Marshal.EnvSize` | cmpserver/apiclient/plugin.pb.go:1370-1388 | the size is the length of the encoding |
| `Marshal.ManifestSize` | cmpserver/apiclient/plugin.pb.go:1390-1410 | the size is the length of the encoding |
| `Marshal.MetadataSize` | cmpserver/apiclient/plugin.pb.go:1337-1368 | the size is the length of the encoding, nested entries included |
| `Marshal.FileSize` | cmpserver/apiclient/plugin.pb.go:1448-1462 | the size is the length of the encoding |
| `Marshal.FlagsSize` | cmpserver/apiclient/plugin.pb.go:1418-1423 | the size of two flags is the length of their encoding |
| `Marshal.RepositorySize` | cmpserver/apiclient/plugin.pb.go:1412-1428 | the size is the length of the encoding, unrecognized bytes included |
| `Marshal.PluginConfigSize` | cmpserver/apiclient/plugin.pb.go:1464-1480 | the size is the length of the encoding, unrecognized bytes included |
| `Marshal.RequestSize` | cmpserver/apiclient/plugin.pb.go:1298-1336 | the size is the length of the encoding, whichever request is set |
| `Marshal.MarshalEnv` | cmpserver/apiclient/plugin.pb.go:1049-1073 | fills exactly the bytes of the encoding before the end, every write in bounds |
| `Marshal.MarshalManifest` | cmpserver/apiclient/plugin.pb.go:1090-1116 | fills exactly the bytes of the encoding before the end, every write in bounds |
| `Marshal.MarshalMetadata` | cmpserver/apiclient/plugin.pb.go:982-1032 | fills exactly the bytes of the encoding before the end, nested entries back to front |
| `Marshal.MarshalFile` | cmpserver/apiclient/plugin.pb.go:1221-1238 | fills exactly the bytes of the encoding before the end, every write in bounds |
| `Marshal.MarshalRepository` | cmpserver/apiclient/plugin.pb.go:1133-1164 | fills exactly the bytes of the encoding before the end, every write in bounds |
| `Marshal.MarshalPluginConfig` | cmpserver/apiclient/plugin.pb.go:1255-1285 | fills exactly the bytes of the encoding before the end, every write in bounds |
| `Marshal.MarshalRequest` | cmpserver/apiclient/plugin.pb.go:904-965 | fills exactly the bytes of the encoding before the end, whichever request is set |
| `Marshal.MarshalUnmarshal` | cmpserver/apiclient/plugin.pb.go:889-898 | a buffer of exactly the size is filled, and decoding it gives the value back exactly when it is valid |
| `Operation.Merge` | controller/appcontroller.go:1660-1697 | phase, start, and whatever is not zero are those written; a retry count, limit, revision, list of revisions, source or result that is zero leaves the earlier one standing, and so does refresh; finishedAt goes exactly when erased |
| `Operation.MergeAgain` | controller/appcontroller.go:1660-1697 | a patch applied twice is a patch applied once, and one without zero values leaves nothing of the earlier state |
| `Operation.Application.SetOperationState` | controller/appcontroller.go:1660-1715 | the store after a write: skipped when nothing differs, the operation gone when completed, finishedAt erased only on request |
| `Operation.Application.OpenPass` | controller/appcontroller.go:1529-1582 | how a pass opens: resume, time out, wait, give up, retry or begin, with what is written and which openings count as attempts |
| `Operation.Application.ClosePass` | controller/appcontroller.go:1585-1633 | what follows an attempt: termination seen on the server is kept, failures are retried while retries are left and never when terminating, a panic ends the operation, any other end stays as it is |
| `Operation.PhaseLeft` | gitops-engine/pkg/sync/sync_context.go:743-766 | a sync leaves an operation running exactly when it was not terminating and the engine reports it running |
| `Operation.Application.ProcessRequestedAppOperation` | controller/appcontroller.go:1478-1658 | the store after a pass in which termination requests may land before the first write, before the re-read and before the final write; the attempts started; the next poll at the requeue interval, or at the timeout of an operation not terminating if that is earlier |
| `Operation.Closed` | controller/appcontroller.go:1594-1633 | a pass ends Running exactly when it will retry, or the sync still runs and no termination was read; retries count one (the phase otherwise: `OperationRuns.ClosesWith`) |
| `Operation.NextPoll` | controller/appcontroller.go:1519-1527 | the requeue interval, or start plus timeout when that comes first and the operation is not terminating |
| `OperationRuns.AttemptsBounded` | controller/appcontroller.go:1478-1682 | over every run: one attempt more than the retries while running, as many while waiting, never more than Limit + 1 |
| `OperationRuns.TerminatingAbsorbs` | controller/appcontroller.go:1535-1633 | over every run a terminating operation stays so until it completes, starts no attempt and counts no retry |
| `OperationRuns.TerminationLostIff` | controller/appcontroller.go:1594-1633 | a request landing in a pass, the first one included, is lost exactly when the pass schedules a retry, or the operation was not terminating and its sync still runs, the request did not stand at a successful re-read, and the final write is made |
| `OperationRuns.TerminationLost` | controller/appcontroller.go:1611-1624 | a run in which a terminated operation makes another attempt |
| `OperationRuns.TerminationOverwritten` | controller/appcontroller.go:1598-1633 | in the first pass of any operation a request that comes after the re-read is overwritten without any retry |
| `OperationRuns.TimeoutEnforced` | controller/appcontroller.go:1537-1542 | whatever it meets, the first pass after the timeout starts no attempt and leaves the operation terminating or completed |
| `OperationRuns.RecordedOutcome` | controller/appcontroller.go:1585-1636 | by the outcome of the attempt: success, failure and error are recorded as they are unless a retry is due, a failure whose backoff does not parse, a missing project and a panic as error; the operation goes exactly at such an end; the result recorded is that of the outcome merged into the earlier one |
| `OperationRuns.ClosesWith` | controller/appcontroller.go:1594-1633 | whatever is seen on the server, the phase, time of end, retry count and result that an attempt of each outcome leaves |
| `OperationRuns.RetriesWhenDue` | controller/appcontroller.go:1543-1573 | a failed attempt is made again by a pass exactly when its time has come; before that nothing is written, and a backoff that does not parse ends the operation |
| `OperationRuns.NotTerminatedUnasked` | controller/appcontroller.go:1535-1542 | within the timeout and without a request no pass sets an operation terminating |
| `OperationRuns.KeptLimitBounds` | controller/appcontroller.go:1660-1697 | over every run on top of an earlier state, while the limit survives the merge, no more attempts than it allows |
| `OperationRuns.OneTooMany` | controller/appcontroller.go:1660-1697 | otherwise three passes make a second attempt of an operation that allows one |
| `OperationRuns.BoundedIffLimitKept` | controller/appcontroller.go:1660-1697 | Limit + 1 bounds the attempts of every run on top of an earlier state exactly when the limit is not zero, or the earlier one is zero or used up |
| `AutoSync.Decide` | controller/appcontroller.go:2328-2478 | exactly when an automated sync starts, with the revisions and source of the target and the limit of the policy, and exactly when it is refused: a target not yet attempted starts, a failed one is refused, a successful one is healed only when that is on and due |
| `AutoSync.Attempted` | controller/appcontroller.go:2485-2518 | the last operation was for this target exactly when its result has the same source and the same revisions, or it completed without a result |
| `AutoSync.NewSyncResult` | controller/sync.go:90-111 | revisions are those of the operation, and so is the source if it names one; otherwise that of the spec |
| `AutoSync.SyncAppState` | controller/sync.go:113-200 | only phase and result change; each point reached has its phase; a loaded comparison records the resolved revisions, a failed load keeps the revision of a single source and drops those of several, an earlier stop keeps the result there was, and a sync without an identifier leaves the result alone |
| `AutoSync.SyncNamesTarget` | controller/sync.go:138-174 | for a single source the result keeps naming the revision and source asked for, however far the sync gets |
| `AutoSync.StartsOnce` | controller/appcontroller.go:2485-2518 | over every run with a single source and no refreshing retries: nothing, then the operation with its own state, then that state completed, and one start |
| `AutoSync.ForgetsRevisions` | controller/state.go:1100-1105 | with several sources a failed manifest load, at once or after a terminated retry, leaves no revisions, and a second operation starts |
| `AutoSync.ForgetsOnRetry` | controller/appcontroller.go:1561-1573 | with refreshing retries an attempt that fails before resolving the revision leaves none, and once the operation is over, by its limit or terminated, a second one starts |
| `AutoSync.AtMostOneIff` | controller/appcontroller.go:2328-2518 | at most one automated operation is ever started exactly when there is a single source and retries, if any, keep the revision |
| `Hooks.ExecuteHooks` | controller/hook.go:99-241 | done exactly when every wanted hook is there and none is progressing, degraded or unreadable; what is created, when it fails, and that failed hooks are all deleted to run again |
| `Hooks.CleanupHooks` | controller/hook.go:244-320 | done exactly when no hook is due for deletion under the worst health of all; those due and not terminating are deleted |
| `Hooks.CleanupDependsOnPolicy` | controller/hook.go:283-320 | clean-up is done, and its finalizer goes, with hooks still live exactly when for each no outcome that it names occurred: all Healthy for success, one Degraded and none Unknown for failure |
| `Hooks.UnannotatedHookStays` | controller/hook.go:287-299 | a live hook that names no policy is never due for deletion, whatever the health; with only such hooks live clean-up is done |
| `Cascade.FilterObjectsForDeletion` | controller/sort_delete.go:24-40 | exactly the objects of the greatest wave, each as often as given |
| `Cascade.Collect` | controller/appcontroller.go:1321-1337 | in whatever order the objects are met, the pass waits exactly when one is terminating or a deletable one awaits confirmation, and otherwise finds all deletable ones |
| `Cascade.DeleteResources` | controller/appcontroller.go:1310-1369 | nothing is deleted while blocked; otherwise exactly the deletable objects of the greatest wave; finished exactly when the re-read shows none deletable |
| `Finalizers.Deletion.FinalizeApplicationDeletion` | controller/appcontroller.go:1245-1434 | after the pre-delete hooks the first phase there is reports done, waiting or an error exactly as the objects met say, and its finalizer goes exactly when it is done and the removal is written; finalizers only shrink; the trace stays orderly, and tells of each phase whether it was done |
| `Finalizers.Deletion.RefreshFinalizers` | controller/appcontroller.go:1984-2015 | outside deletion the hook finalizers come to match the hooks; once deletion is seen nothing changes |
| `Finalizers.Deletion.DeletionRun` | controller/appcontroller.go:1245-1434 | over any passes and refreshes at most five report a phase done, and whatever is in the trace is what one of the passes met |
| `Finalizers.EarlierRemovedFirst` | controller/appcontroller.go:1278-1422 | in every trace with a known destination, an effect of a phase comes only after the removal, once its phase was done, of each earlier finalizer that was there |
| `Finalizers.LeavesOnlyByRemoval` | controller/appcontroller.go:1278-1422 | a finalizer leaves only by its removal, which follows its phase being done, or when the destination is unknown |
| `Finalizers.RemovedForGood` | controller/appcontroller.go:1278-1422 | in every trace a finalizer is removed only right after what it stands for: the cascade's after nothing was in the way, the whole greatest wave was deleted and a re-read showed nothing to delete, those of hooks after all of the kind ran, those of clean-ups when no outcome that a live hook names has occurred |
| `Finalizers.PresentShrinks` | controller/appcontroller.go:1278-1422 | along a trace the finalizers only shrink |
| `FinalizerList.UnSetFinalizer` | pkg/apis/application/v1alpha1/types.go:3877-3897 | one occurrence goes, and only the place where it first occurs changes |
| `FinalizerList.UnSetMatching` | pkg/apis/application/v1alpha1/types.go:3663-3669 | although the loop runs over the array that the removals rearrange, every chosen finalizer goes and every other is kept as often as before |
| `Restore.RestoreNonIgnoredFields` | controller/sync.go:604-644 | the two passes compute the recursive specification in whatever order keys are met; what that holds at every path is `Restore.RestoredAt` and `Restore.WalkedThrough` |
| `Restore.RestoredAt` | controller/sync.go:604-644 | every path on which the walk stops: a key the original lacks goes exactly when the normalized live tree has it, a place the normalizer left alone is the original's, any other is the patched tree's |
| `Restore.WalkedThrough` | controller/sync.go:613-623 | a path on which it does not stop ends at an object |
| `Restore.IgnoredFieldKept` | controller/sync.go:624-630 | a field that the normalizer changed or dropped keeps the patched value, or absence |
| `Restore.Idempotent` | controller/sync.go:604-644 | restoring twice is restoring once |
| `Restore.LeafRestoredIff` | controller/sync.go:604-630 | a leaf the normalizer left alone ends with the original value exactly when the patched tree has objects down to it or the normalizer changed nothing where it first has none |
| `Restore.LiveOnlyKey` | controller/sync.go:604-644 | for every path the original lacks, what the patched tree has is kept, unless where the walk stops the normalized live tree has a key the original lacks, or the normalizer changed nothing and the original is put back |
| `Restore.NothingInvented` | controller/sync.go:604-644 | every leaf of the result was at the same path of the patched or the original tree |
| `Decimal.AtoiOfItoa` | controller/appcontroller.go:1136-1140 | reading a written level gives it back |
| `Decimal.AtoiIff` | controller/appcontroller.go:1136-1140 | exactly the texts that spell a 64-bit integer, signed or not and with zeros before it, are read, and as that integer |
| `Refresh.Controller.RequestAppRefresh` | controller/appcontroller.go:1000-1017 | a level without delay is posted, one with a delay becomes a text key, and the application is queued |
| `Refresh.Controller.IsRefreshRequested` | controller/appcontroller.go:1019-1027 | over every interleaving, the level consumed is the highest posted since the last consumption, and one is consumed exactly when one was posted |
| `Refresh.Controller.ProcessComparisonTypeQueueItem` | controller/appcontroller.go:1119-1145 | a well-formed key is posted as the application and level it names, any other is dropped |
| `Refresh.DelayedRoundTrip` | controller/appcontroller.go:1003-1005 | a delayed request comes back as the same application and level exactly when neither name has a slash |
| `Refresh.KeyOfSpellings` | controller/appcontroller.go:2832-2843 | the three spellings of an application give one key |
| `MirrorPlan.CutAtSlash` | mirror/plan.go:51-54 | what precedes the first slash, exactly when there is one |
| `MirrorPlan.OwnedIff` | mirror/plan.go:50-54 | a full name is owned exactly when it is an owned org, a slash, and anything |
| `MirrorPlan.SortBySize` | mirror/plan.go:122-122 | sorted by size with equal sizes in order |
| `MirrorPlan.Plan` | mirror/plan.go:89-124 | the plan is the accepted entries sorted stably by size; every other entry has one error, for the first check it fails, in order; the first claimant of a repository wins |
| `MirrorPlan.PlannedTargets` | mirror/plan.go:89-124 | planned repositories lie in owned orgs, and no two are one repository or one forge target |
| `Mirror.AncestorTransitive` | mirror/sync.go:179-188 | ancestry composes along walks in the commit graph |
| `Mirror.FastForward` | mirror/sync.go:120-202 | equal tips are in sync, a missing one is skipped; otherwise, unless a step failed, the branch moves exactly when the forge's tip is an ancestor, by a push of GitHub's tip, and has diverged when not |
| `Mirror.Reconcile` | mirror/sync.go:226-261 | one result for each native entry in plan order; from is the tip that the forge answered and to the one that GitHub answered for the same branch, and the outcome is decided by these; every branch only moved forward, whoever moved it; pushes, all fast-forwards of the tip actually replaced, took exactly GitHub's tips to exactly the targets that moved; results failed as often as steps did |
| `Mirror.AllNatives` | mirror/sync.go:226-231 | every native entry of the plan is reconciled as often as planned, and no other |
| `Mirror.MirrorsUntouched` | mirror/sync.go:226-231 | no push goes to the repository of an entry that is not native |
| `Mirror.Summary` | mirror/sync.go:283-292 | the counts of all outcomes, and exactly the diverged and failed results for a person |

## Left out

- Logging, tracing, metrics, events, message texts, redaction: no effect on the decisions modelled; messages of rollout entries are kept as an enumeration because the persistence step compares them.
- Kubernetes clients, informers, work queues, rate limiting, caches and servers: only their reads, writes and enqueues appear, as environment.
- Manifest generation, diffing, strategic merge patches, health checks and the sync engine: arbitrary results.
- ParametersAnnouncementResponse: its nested message type is defined elsewhere.
- Messages: a decode error does not model the partly filled message; messages are values, so sharing of byte slices with the input is not captured, and the generated decode loop is modelled once for all message types.
- Pass.PerformProgressiveSyncs: the recording of invalid maxUpdate values and the InvalidRolloutConfig condition.
- Reconcile.SyncDesiredApplications: the in-place change of the policy that the generated applications share.
- Rollout.NextStatus: nil and empty revision lists are one value, as are empty and absent parts of a spec.
- Quota.Bound: the library's rounding is taken as integer floor; float rounding of large products is not modelled.
- AutoSync.Decide: the self-heal attempt counter and the list of resources of a self-heal; the back-off is a given boolean.
- AutoSync.SyncAppState: the branches after the comparison are one arbitrary phase.
- Operation.Application.ProcessRequestedAppOperation: one clock reading for the opening and one for the end of a pass; the backoff formula is arbitrary; message and synced resources appear only as whether they changed; an operation replaced by another while in progress.
- Hooks.ExecuteHooks: the parsing of hook annotations into types, and tracking labels.
- Finalizers.Deletion.FinalizeApplicationDeletion: finalizers are a set of five, the three cascade finalizers being one; duplicates are treated in FinalizerList only.
- Restore.RestoreNonIgnoredFields: works on values, so maps shared between the trees are not captured.
- Refresh.Controller.RequestAppRefresh: levels are exact integers; the source compares them through floating point.
- MirrorPlan.Plan: the case-insensitive comparison that marks an entry as renamed.
- Mirror.FastForward: URLs, credentials and the layout of the local store.
- Generators, template rendering, SCM and pull-request providers, webhooks, CLI, UI: library wrappers or presentation.
