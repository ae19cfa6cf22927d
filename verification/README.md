# Verified model of simply_hook_executor

A daemon that runs scripts on request. API keys sign their requests, hold permission rows on hooks, and delegate
rights to daughter keys; hooks say which script runs, as whom and with which arguments. This project models the
parts of it that keep state or transform data under an exact contract, and proves what they promise. `dafny verify
dfyconfig.toml` checks everything.

## The parts

**The authorization state machine.** `Rbac` holds the tables as maps, with the unique keys and the cascade and set-null
rules of the schema, and the thirteen kinds of write. `Guards` holds the decisions, `KeyRoutes`, `HookRoutes` and
`ExecutionRoutes` one transition per handler in the order of its checks, and `Service` the requests, the background
steps and whole runs. `Writes` proves that every write of every request is legal and, below the master, sanctioned;
everything after rests on that:

- `Invariants`: what every run keeps, by the master or not.
- `Containment` and `Widening`: a verb on a hook can spread without the master *if and only if* some manager already
  holds both that verb and `can_manage` on it, and the hook is live and not elevated; the same for what the hook runs;
  elevated hooks are frozen.
- `CascadeDeletion`: what a key deletion takes with it, and exactly how a live hook can lose its owner.
- `Listings`: batched lists against single reads.
- `HiddenHook`, `HiddenHookTells`, `HiddenKey`: two-run indistinguishability. A request has the same effect whether or not
  a hidden hook, or a hidden key, exists *if and only if* it is not one of the requests that tell, which are named by
  conditions on the request and the state.
- `Sessions`, `HiddenHookSessions`, `HiddenKeySessions`: the same if-and-only-if over whole sessions of one caller.
- `KeyContracts`, `HookContracts`, `ExecutionContracts`: for every route, exactly when it passes, what each field and table
  then is, and what it answers, said on the request and the tables alone, through no guard, view or transition.
- `RoundTrips`: exact conditions of grants and revocations, what one request undoes of another, what a read shows of a
  write.
- `Lineage` and `DatabaseHandlers`: the loops (breadth-first search, the resolution loop of a deletion, the parameter
  inserts of a creation, the key list) and the handlers around them, as methods over a class holding the tables, proved
  equal to the transitions.

**Signatures.** `JsNumber`, `PureCrypto`, `Fips180` and `RootConstants`: SHA-256 and HMAC in JavaScript number semantics
against FIPS 180-4 (sections 2.2.2, 3.2, 4.1.2, 4.2.2, 5.1.1, 5.3.3, 6.2.2) and section 2 of RFC 2104. `Canonical`: the
signed string. `Replay` and `ReplayConcurrency`: the replay guard as a class and as interleaved steps.
`SignatureLifetime`: the signed branch, and how often one signature can be used. `SignatureConcurrency`: the same under every
interleaving of calls. `MasterPin`: the write-once identity.

**Execution.** `Text`, `ArgsTemplate` and `CommandPlan`: the two template scanners and the command they lead to.
`TemplateLaws`: what trimming, tokens, names, forbidden values and renderings are, said without the functions that compute
them.
`ConcurrencyLimiter`: per-key budgets, and the protocol of requests over them.

**Addresses.** `TrustedProxies` with `ProxyCache` and `Address`: the DNS cache. `ClientAddress`: the right-to-left walk.

## Where the code and its documentation differ

- `create_hook` documents a creation as one act. Its inserts are separate statements, so a repeated parameter key, and
  nothing else, answers "conflict" and leaves the hook, without a permission row for its creator (`HalfCreatedExactly`,
  with an input in `TwiceDeclaredIsHalfCreated`).
- The specification asks the same answer for an invisible hook as for an absent one. `HookIndistinguishable` names the
  requests that differ, each with its exact condition: taking the hidden hook's unique name, a grant by a caller to itself,
  listing, editing or deleting a key below the caller that holds a row on the hook or owns it, and reading the caller's own
  runs of it. Running a hook and reading it also disagree on its existence in two cases (`DenialsDisagreeExactly`).
- The same for an invisible key: a deletion that reassigns a hook to it, and reading a record it wrote
  (`KeyIndistinguishable`).
- A hook whose owner was deleted while it lay in the trash is revived without an owner, and nothing else does that
  (`LiveOwnersKeptExactly`, `RestoringAnOrphan`).
- The replay guard is documented as single use. It remembers for one window from acceptance while timestamps pass for
  two, so a signature can be accepted three times (`ThreeUses`); `SignatureUses` and `InterleavedUses` give the bound and
  `UsableAgain` the exact condition. A canonical template without the timestamp has no bound at all
  (`TimelessSignatureHasNoBound`).
- The skew check subtracts 64-bit integers; the timestamp exactly 2^63 seconds in the past passes every window
  (`SkewIsTheWindow`).
- The default template and the string built directly are documented as equivalent. They agree exactly when the body is
  valid text, and the path holds no `{timestamp}` and no `{body}`, the latter unless it is the whole body; `{method}` and
  `{path}` in a path are harmless (`RenderingsAgreeExactly`, with an input in `BraceInPathBreaksAgreement`).
- A cached outcome is documented to last its lifetime. A forced lookup can cut it short: how close two lookups of a name
  can come, whatever was forced between them, is `SpacingExactly`. The negative lifetime holds throughout
  (`NegativeLifetimeAlwaysHolds`), the positive one unless a forced lookup failed (`SuccessLastsUnlessForcedToFail`).
- After an edit of a key's budget, the old semaphore's jobs are not counted against the new one; the bound holds from then
  on if and only if they have drained (`DrainedExactly`).

## Model

| member | source | states |
|---|---|---|
| Writes.EveryWriteProper | src/api/guards.rs:44-967 | every write of every request keeps the referential and row rules, and a caller below the master writes only what ownership, the R2 conjunction, R1, its lineage and non-elevation allow |
| Writes.CreateKeyProper | src/api/keys.rs:518-620 | only a manager creates keys; below the master the key has no scope and the caller as its parent |
| Writes.UpdateKeyProper | src/api/keys.rs:708-792 | lineage and the master flag never change; below the master only keys in the caller's subtree, and no scope is raised |
| Writes.GrantProper | src/api/keys.rs:1292-1431 | a written row lies within the target's old row, or within the row of a manager that writes it to another key, on a live hook that is not elevated |
| Writes.RevokeProper | src/api/keys.rs:1435-1493 | only the conjunction or the master removes a row |
| Writes.CreateHookProper | src/api/hooks.rs:420-565 | a new hook has a free name, valid fields and distinct parameter keys; below the master it is owned by its creator and not elevated |
| Writes.UpdateHookProper | src/api/hooks.rs:630-826 | below the master an edit keeps the owner, touches no elevated hook and elevates none; what runs changes only under the conjunction, the name only by the owner |
| Writes.DeleteHookProper | src/api/hooks.rs:844-942 | below the master only the owner trashes a hook, and nobody removes its row |
| Writes.RestoreHookProper | src/api/hooks.rs:949-992 | only the master restores, and the row keeps its rules |
| Writes.CreateParamProper | src/api/hooks.rs:1067-1127 | a parameter is declared under a new key, by owner or conjunction, never on an elevated hook below the master |
| Writes.UpdateParamProper | src/api/hooks.rs:1130-1176 | an edited parameter keeps its hook and key |
| Writes.DeleteParamProper | src/api/hooks.rs:1179-1214 | a parameter is removed only from the named hook, by owner or conjunction, never on an elevated hook below the master |
| Writes.ExecuteHookProper | src/api/executions.rs:117-146 | a keyed run is recorded under the caller, which holds `can_execute` |
| Writes.DeleteExecutionProper | src/api/executions.rs:428-469 | a record is removed only by the master or a key that owns or manages its hook |
| Writes.ReadersWriteNothing | src/api/executions.rs:206-425 | lists, single reads and dry runs write nothing |
| Writes.SealedSecret | src/api/hooks.rs:266-297 | a hook authenticated by HMAC alone always ends up with a secret |
| Writes.NormalizedAccount | src/api/guards.rs:397-418 | a stored account is trimmed, valid and the master's doing; a blank one is none |
| Writes.InsertedParamsFresh | src/api/hooks.rs:525-544 | the parameters of a new hook have their own ids, its hook id, and pairwise different keys |
| Invariants.RunKeepsInv | src/api/keys.rs:873-1071 | over every run: no dangling reference, lineage a forest, exactly one master and always the same parentless key, valid keys, hooks and parameters, unique names |
| Invariants.BootstrapKeepsInv | src/main.rs:101-132 | the bootstrapped database, one parentless master, satisfies all of it |
| Invariants.KeptForest | src/api/keys.rs:586-590 | each legal write keeps the parent relation a forest without dangling parents |
| Invariants.KeptMaster | src/api/guards.rs:525-640 | no write makes, unmakes, moves or removes the master |
| Invariants.KeptKeyRules | src/api/guards.rs:491-520 | a key that manages keys never has a signing template of its own |
| Invariants.KeptOwners | src/api/hooks.rs:672-694 | an owner, even a deleted one, is never an id that a later key can get |
| Lineage.DescendantKeyIds | src/api/keys.rs:94-114 | on every parent relation, cyclic ones included, terminates with exactly the keys reached by one or more child edges, without the root |
| Lineage.SubtreeRemovalKeepsForest | src/api/keys.rs:1048-1055 | removing a key and all its descendants leaves a forest |
| Lineage.AncestorOutsideSubtree | src/api/keys.rs:941-949 | in a forest the subtree of a descendant never holds its ancestor |
| Containment.PermissionContainment | src/api/guards.rs:755-967 | over every run without the master, a verb that no manager holds together with `can_manage` on a live, unelevated hook never reaches a key that lacked it |
| Containment.ScopesNeverGrow | src/api/guards.rs:431-459 | over every run without the master, no key gains a global scope |
| Containment.DispatchContainment | src/api/guards.rs:219-229 | over every run without the master, script, account and argument template of a hook no manager manages stay as they are, also at the hands of its owner |
| Containment.ElevatedHooksAreFrozen | src/api/guards.rs:661-683 | over every run without the master, a hook elevated at the start or at the end is elevated at both, with the same definition and parameters, and rows that were only removed |
| Containment.ElevationIsFixed | src/api/hooks.rs:654-662 | over every run without the master, no hook comes into elevation, out of it, or back from the trash |
| Widening.VerbSpreadsExactly | src/api/keys.rs:1292-1431 | some run without the master gives a key a verb it lacked if and only if some manager holds that verb and `can_manage` on the hook, which is live and not elevated |
| Widening.WideningRun | src/api/keys.rs:518-620 | where it can, two requests do it: a daughter and a grant |
| Widening.DispatchChangesExactly | src/api/hooks.rs:643-650 | some run without the master changes what a hook runs if and only if some manager manages it and it is live and not elevated |
| CascadeDeletion.DeletionPassesExactly | src/api/keys.rs:930-1017 | exactly when a deletion succeeds: who, whom, a complete resolution map and no stray one, valid targets |
| CascadeDeletion.DeletionIsExact | src/api/keys.rs:1048-1055 | it removes exactly the target and its descendants, never caller or master, exactly their rows, and keeps every record with removed authors cleared |
| CascadeDeletion.DeletionSettlesOwnership | src/api/keys.rs:1019-1046 | every owned hook is trashed or reassigned to a surviving key as its resolution says, every other is untouched, and no live hook is left with a removed owner |
| CascadeDeletion.LiveOwnersKeptExactly | src/api/hooks.rs:949-978 | over every step of every caller, live hooks keep existing owners unless the master restores a trashed hook whose owner is gone, and only then not |
| CascadeDeletion.LiveOwnersKept | src/api/keys.rs:1022-1046 | without the master no run leaves a live hook without its owner |
| CascadeDeletion.RestoringAnOrphan | src/api/keys.rs:1028-1038 | deleting a key with its hook trashed and restoring the hook gives a live hook whose owner does not exist |
| Listings.KeyListIsPointwise | src/api/keys.rs:623-675 | the key list shows each key exactly at the level `key_visibility` gives |
| Listings.MinimalViewsStayShared | src/api/keys.rs:458-490 | the minimal form lists only hooks the caller itself manages |
| Listings.ExecutionScopeIsPointwise | src/api/executions.rs:337-344 | the list condition is `may_read_execution` |
| Listings.HistoryIsPointwise | src/api/executions.rs:401-425 | the unfiltered history shows exactly the records that can be read singly, alike |
| Listings.VisibleHooksArePointwise | src/api/guards.rs:349-385 | the visible ids are exactly the hooks `guard_visibility` passes |
| Listings.HookListIsPointwise | src/api/hooks.rs:579-627 | the hook list shows exactly the live hooks that can be read singly, alike |
| Listings.AuthorityImpliesVisibility | src/api/guards.rs:236-260 | every hook a key may manage, redirect or run is one it can see |
| Listings.DenialsDisagreeExactly | src/api/guards.rs:81-105 | exactly where running and reading disagree on whether a hook exists |
| HiddenHookTells.HookIndistinguishable | src/api/guards.rs:81-260 | a request has the same write and answer whether an unrelated hook exists or not if and only if it is not one of those that tell |
| HiddenHookTells.CreatingTellsExactly | src/api/hooks.rs:502-523 | a creation tells exactly when it takes the hidden name and would have passed without the hook |
| HiddenHookTells.RenamingTellsExactly | src/api/hooks.rs:738-745 | a renaming tells exactly when it takes the hidden name and would have passed without the hook |
| HiddenHook.SelfGrantTellsExactly | src/api/keys.rs:1336-1379 | a grant tells a hidden hook from none exactly when it grants the caller itself a verb |
| HiddenHookTells.KeyListTellsExactly | src/api/keys.rs:636-675 | the key list tells exactly when it shows a key below the caller that holds a row on the hook |
| HiddenHookTells.EditingKeysTellsExactly | src/api/keys.rs:756-792 | editing a key tells exactly when it passes and the key holds a row on the hook |
| HiddenHookTells.DeletingKeysTellsExactly | src/api/keys.rs:953-1017 | deleting a key tells exactly when its subtree owns the hook and the deletion gets as far as its inventory |
| HiddenHookTells.HistoryTellsExactly | src/api/executions.rs:337-364 | the history tells exactly when it names no hook and shows a run of the hidden one by the caller; `?hook=` never tells |
| HiddenHookSessions.SessionsTellExactly | src/api/support.rs:172-204 | a session has the same effects throughout as without the hook if and only if none of its requests tells, and then the same answers |
| HiddenHookSessions.AbsentCommutes | src/api/hooks.rs:877-880 | removing a hook commutes with every write that leaves it alone |
| HiddenKey.KeyIndistinguishable | src/api/keys.rs:137-197 | a request has the same write and answer whether a childless invisible key exists or not if and only if it is not one of those that tell |
| HiddenKey.DeletingTellsExactly | src/api/keys.rs:1004-1017 | a deletion tells the invisible key exactly when it succeeds by reassigning a hook to it |
| HiddenKey.HistoryTellsExactly | src/api/executions.rs:337-398 | the history tells exactly when it shows a record the key wrote |
| HiddenKey.RecordTellsExactly | src/api/executions.rs:401-425 | a single record tells exactly when the caller may read it and the key wrote it |
| HiddenKeySessions.SessionsTellExactly | src/api/keys.rs:180-197 | a session has the same effects throughout as without the key if and only if none of its requests tells, and then the same answers |
| HiddenKeySessions.GoneCommutes | src/api/keys.rs:1048-1055 | removing a key commutes with every write that leaves it alone |
| HiddenKey.NoRowToRevoke | src/api/keys.rs:1461-1476 | a key invisible to the manager of a hook holds no row on it, so revoking one is not found either way |
| KeyContracts.VisibilityExactly | src/api/keys.rs:137-169 | a key is seen in full exactly by the master, itself and its ancestors, in minimal form exactly by a manager of a hook it holds a row on otherwise, and else not at all |
| KeyContracts.CreateKeyExactly | src/api/keys.rs:518-620 | exactly when a creation passes, is forbidden or is invalid; every field of the new key; nothing else changes |
| KeyContracts.UpdateKeyExactly | src/api/keys.rs:708-792 | exactly when an edit passes, and that a key out of reach is not found |
| KeyContracts.UpdateKeySets | src/api/keys.rs:756-792 | a passing edit sets exactly the fields the payload names, the template cleared by an empty text, and leaves every other field and row |
| KeyContracts.UpdateKeyShows | src/api/keys.rs:492-516 | an edit answers with every field of the row as it then is, but no secret |
| KeyContracts.RenewExactly | src/api/keys.rs:1088-1261 | exactly when a renewal passes, which of token and signing pair it replaces and shows, and that all else stays |
| KeyContracts.DeleteKeyExactly | src/api/keys.rs:930-1017 | exactly when a deletion passes; exactly when it is refused for want of resolutions, and then its answer lists every hook the subtree owns and every key of it, with names |
| KeyContracts.ResolutionExactly | src/api/keys.rs:1019-1046 | each resolved hook is trashed and stamped, or handed over, and otherwise as it was |
| KeyContracts.GrantExactly | src/api/keys.rs:1292-1431 | a grant passes if and only if the master, or a manager of the live unelevated hook that sees the target, reduces its row or gives another key no more than its own; and then the row is the payload's whatever it was before |
| KeyContracts.GrantNeedsAHook | src/api/keys.rs:1341-1362 | a grant that passes names its hook by exactly one of id and name, and finds it |
| KeyContracts.RevokeExactly | src/api/keys.rs:1435-1493 | exactly when a revocation passes, and then that row alone is gone |
| KeyContracts.ListKeysExactly | src/api/keys.rs:623-675 | the list is refused to whom it is; otherwise it is exactly the keys in reach, field by field, and those sharing a managed hook, in minimal form |
| HookContracts.FindExactly | src/api/support.rs:172-204 | with unique names a text finds exactly the hook with that id, or else that name; a trashed one only where asked for |
| HookContracts.DetailExactly | src/api/hooks.rs:214-257 | what is shown of a hook: its row without the secret, whether there is one, its parameters, and what the caller is to it |
| HookContracts.GetHookExactly | src/api/hooks.rs:611-627 | exactly who reads a hook, the trash being the master's, and what is shown |
| HookContracts.ListHooksExactly | src/api/hooks.rs:579-608 | exactly the hooks the caller owns or holds a verb on; live ones, and with the trash, for the master alone, all |
| HookContracts.CreateHookExactly | src/api/hooks.rs:420-523 | exactly when a creation passes its checks, sample payload and argument template included, and when it is forbidden |
| HookContracts.CreateHookSets | src/api/hooks.rs:502-523 | every field of the new row, its defaults included |
| HookContracts.CreateHookInserts | src/api/hooks.rs:525-565 | exactly the declarations before the first repeated key become parameters, each with its fields; the creator gets all three verbs exactly when none repeats |
| HookContracts.EditorExactly | src/api/guards.rs:173-234 | exactly who may edit which fields of a hook |
| HookContracts.UpdateHookExactly | src/api/hooks.rs:630-734 | exactly when an edit passes: who, and what the edited row must satisfy against the declared parameters and the other names |
| HookContracts.UpdateHookSets | src/api/hooks.rs:736-799 | a passing edit sets exactly the fields the payload names, trimmed, cleared or sealed as the source does, and leaves every other field, owner and trash columns included, and every other row |
| HookContracts.UpdateHookShows | src/api/hooks.rs:801-826 | and it answers with that row |
| HookContracts.DeleteHookExactly | src/api/hooks.rs:844-942 | exactly who trashes and who removes a hook; the trash stamps three columns, a removal takes exactly its parameters, rows and records with it |
| HookContracts.RestoreHookExactly | src/api/hooks.rs:949-992 | exactly when a hook is restored, and that only its three trash columns change |
| HookContracts.PurgeHooksExactly | src/api/hooks.rs:1000-1052 | exactly when a purge passes; exactly the hooks trashed longer ago than the window are gone, none with a window of zero, and the answer counts them |
| HookContracts.SweepHooksExactly | src/retention.rs:73-96 | the background sweep does the same with the configured window |
| HookContracts.ListParamsExactly | src/api/hooks.rs:1056-1064 | exactly the hook's parameters, exactly for those who see it |
| HookContracts.CreateParamExactly | src/api/hooks.rs:1067-1127 | exactly when a parameter is declared, and every field of its row, required unless told otherwise |
| HookContracts.UpdateParamExactly | src/api/hooks.rs:1130-1176 | exactly when a parameter is edited, and every field of its row |
| HookContracts.DeleteParamExactly | src/api/hooks.rs:1179-1214 | exactly when a parameter is removed, and then that row alone |
| HookContracts.UnknownHookNotFound | src/api/support.rs:172-204 | a text that names no live hook is not found by every route that takes one, whatever else the request says |
| ExecutionContracts.ExecuteHookExactly | src/api/executions.rs:117-146 | a keyed run passes if and only if the caller is the master or its row grants `can_execute`, and the run gave something; which refusal otherwise; every field of the record it leaves |
| ExecutionContracts.KeylessExecuteExactly | src/api/executions.rs:168-200 | a run without a key passes exactly when it gave something, and is recorded without an author |
| ExecutionContracts.TestHookExactly | src/api/executions.rs:206-266 | the same guard for a dry run, with its report over the hook's parameters, and nothing recorded |
| ExecutionContracts.MayReadExactly | src/api/guards.rs:286-347 | the single read and the list condition are both: own record, owned hook, or a row that views or manages |
| ExecutionContracts.ListExecutionsExactly | src/api/executions.rs:322-398 | exactly when a list is answered, and exactly the readable records that meet the hook, author and other filters, with their names |
| ExecutionContracts.GetExecutionExactly | src/api/executions.rs:401-425 | exactly the readable records are found |
| ExecutionContracts.DeleteExecutionExactly | src/api/executions.rs:428-469 | exactly when a record is deleted, and then that record alone |
| ExecutionContracts.PurgeExecutionsExactly | src/api/executions.rs:487-518 | exactly when a purge passes; exactly the records older than the window are gone, none with a window of zero, and the answer counts them |
| ExecutionContracts.SweepExecutionsExactly | src/retention.rs:38-71 | the background sweep does the same with the configured window |
| RoundTrips.GrantPassesExactly | src/api/guards.rs:877-967 | exactly when a row may be written: R1 and R2 for a grant to another key, R2 for a reduction |
| RoundTrips.RevokePassesExactly | src/api/keys.rs:1443-1476 | exactly when a row may be removed: R2 or the master, and a row there |
| RoundTrips.GrantThenRevoke | src/api/keys.rs:1388-1415 | a first grant sets exactly its row, and revoking it restores the state |
| RoundTrips.RenewalsCompose | src/api/keys.rs:1088-1261 | each renewal changes its own credential alone, and the two together are a rotation |
| RoundTrips.TrashRoundTrip | src/api/hooks.rs:909-978 | a trashed hook is found by nothing, and restoring it gives back the same state |
| RoundTrips.CreateThenDelete | src/api/keys.rs:516-566 | creating and deleting a key leaves nothing but a used id |
| RoundTrips.PutThenGet | src/api/hooks.rs:801-826 | an edit changes one row, and answers what the next read answers |
| RoundTrips.PostThenGet | src/api/hooks.rs:383-417 | a completed creation gives its creator all three verbs, and answers what the next read answers |
| RoundTrips.HalfCreatedExactly | src/api/hooks.rs:525-546 | a creation that passes its checks answers a conflict, and leaves its hook without a row for the creator, if and only if a declared parameter key repeats |
| RoundTrips.TwiceDeclaredIsHalfCreated | src/api/hooks.rs:525-546 | a hook declared with one parameter twice is such a creation |
| Writes.DistinctPrefixExactly | src/api/hooks.rs:525-544 | every declaration is inserted exactly when no key repeats |
| RoundTrips.PutKeyThenList | src/api/keys.rs:756-792 | an edit of a key answers what the list then shows of it |
| DatabaseHandlers.Database.VisibilityOf | src/api/keys.rs:137-169 | computes `key_visibility` with the search |
| DatabaseHandlers.Database.Find | src/api/support.rs:172-204 | by id first, then by name, and live if asked |
| DatabaseHandlers.Database.ListApiKeys | src/api/keys.rs:636-675 | the loop over all keys with batched sets gives, in order, each key at its pointwise level |
| DatabaseHandlers.Database.DeleteApiKey | src/api/keys.rs:930-1071 | leaves the tables and answers as the deletion transition says; the two counters add up to the resolutions |
| DatabaseHandlers.Database.CheckDeletion | src/api/keys.rs:938-1017 | the checks in their order stop with the transition's error, or pass the subtree it deletes |
| DatabaseHandlers.Database.CheckEditor | src/api/hooks.rs:637-694 | the guards in their order decide who may edit as the transition does |
| DatabaseHandlers.Database.SettleHooks | src/api/keys.rs:1020-1046 | whatever order the resolutions come in, every hook is settled once as resolved |
| DatabaseHandlers.Database.InsertParameters | src/api/hooks.rs:525-544 | inserts exactly the declarations before the first repeated key |
| DatabaseHandlers.Database.CreateHookHandler | src/api/hooks.rs:420-565 | leaves the tables and answers as the creation transition says |
| DatabaseHandlers.Database.UpdateHookHandler | src/api/hooks.rs:630-826 | leaves the tables and answers as the edit transition says; a successful edit leaves each field of the row as the payload names it, or as it was |
| DatabaseHandlers.SetFields | src/api/hooks.rs:736-799 | each field the payload names is set, trimmed or cleared as the source does, and every other is kept |
| Replay.ReplayGuard.constructor | src/replay.rs:124-142 | a new guard remembers nothing and schedules its sweeps from its clamped window |
| Replay.ReplayGuard.CheckAndRecord | src/replay.rs:156-178 | sequential answers are those of a guard that never forgets, whatever the schedule and capacity do; poisoned locks refuse |
| Replay.ReplayGuard.PruneIfDue | src/replay.rs:199-235 | exactly when a sweep is due, by schedule or at 250,000 entries; exactly the expired entries go, and when the next are due |
| Replay.ReplayGuard.SweepCost | src/replay.rs:41-64 | in any span T at most floor(T/(window/4)) + floor(T/(window/16)) + 2 sweeps |
| Replay.ExplainedAnswers | src/replay.rs:156-178 | the pruned map answers like the log of acceptances |
| Replay.SpacedCount | src/replay.rs:199-235 | instants a gap apart number at most floor(T/gap) + 1 in a span of T |
| ReplayConcurrency.AcceptancesApart | src/replay.rs:156-235 | in every interleaving two acceptances of one signature are a window apart, from the first clock read to the second insertion |
| ReplayConcurrency.ChecksExplained | src/replay.rs:156-178 | in every reachable state a check accepts nothing that was accepted less than a window ago, and refuses, unless poisoned, only what was accepted less than a window before its own clock read |
| ReplayConcurrency.RunKeepsInv | src/replay.rs:156-235 | every interleaving keeps every acceptance covered by the map for a window |
| ReplayConcurrency.StaleReadersInsertTogether | src/replay.rs:156-178 | from insertion to insertion there is no such bound |
| SignatureLifetime.SkewIsTheWindow | src/middleware.rs:63-77 | the check is the symmetric window but for one timestamp, 2^63 seconds in the past |
| SignatureLifetime.NegativeLimit | src/middleware.rs:63-77 | a negative limit refuses every timestamp but that one |
| SignatureLifetime.AuthenticateSigned | src/middleware.rs:339-425 | the signed branch accepts exactly a fresh timestamp, a known secret, a digest matching the string of the applicable template or the default, and a first use, and records only then |
| SignatureLifetime.SignatureUses | src/middleware.rs:347-422 | one signature is accepted at most floor(((2A+1)s + D - 1)/w) + 1 times over any run, D the longest wait between the two clock reads |
| SignatureLifetime.SignatureUsesWholeSeconds | src/middleware.rs:347-422 | with one clock read per request the bound is floor(2A/w) + 1, so at most three when A is at most an hour |
| SignatureLifetime.LateAcceptanceIsFinal | src/middleware.rs:63-77 | with A at most an hour and one clock read per request, a signature accepted in a second later than its timestamp is never accepted again |
| SignatureLifetime.UsableAgain | src/replay.rs:124-178 | right after an acceptance the same request succeeds again at some later instant if and only if its window outlasts the guard's |
| SignatureLifetime.ThreeUses | src/replay.rs:124-178 | the bound of three is attained for every window up to an hour |
| SignatureLifetime.SignatureFixesTheRequest | src/crypto.rs:87-98 | two requests have one signature if and only if they agree on key, secret, method, target, timestamp and body |
| SignatureLifetime.SignatureCovers | src/middleware.rs:363-422 | the digest is over the four fields in their places, also under the default template, and is remembered under the request's key |
| SignatureLifetime.SameSignatureSameTimestamp | src/crypto.rs:87-98 | one signature fixes one timestamp |
| SignatureLifetime.TimelessSignatureHasNoBound | src/middleware.rs:363-397 | a template that leaves the timestamp out makes one signature acceptable once in every guard window, without bound |
| SignatureLifetime.MethodPathBodyIsTimeless | src/crypto.rs:224-238 | the template of method, path and body is such a template |
| SignatureConcurrency.InterleavedUses | src/replay.rs:156-235 | under every interleaving one signature is accepted at most floor(((2A+1)s + D - 1)/(w - E)) + 1 times, E < w the longest stall between clock read and insertion |
| SignatureConcurrency.InterleavedLateIsFinal | src/middleware.rs:347-422 | under every interleaving an acceptance whose window, less the delay, outlasts the timestamp is its signature's last |
| Canonical.PayloadLayout | src/crypto.rs:87-98 | where each field stands in the signed string |
| Canonical.PayloadInjective | src/crypto.rs:87-98 | the signed string determines method, target, timestamp and body when the first three hold no newline |
| Canonical.RenderingsAgree | src/crypto.rs:210-238 | without a brace in the first three fields the default template renders to the same bytes exactly when the body decodes to itself |
| Canonical.RenderingsAgreeExactly | src/crypto.rs:210-238 | for every newline-free path and validated timestamp they agree if and only if the body decodes to itself, the path holds no `{timestamp}`, and no `{body}` unless that is the body |
| Canonical.RenderAnyPath | src/crypto.rs:224-238 | whatever the path holds, the rendering is the payload with the last two placeholders of the path expanded |
| Canonical.EmptyTimestampCoincidence | src/crypto.rs:224-238 | with an empty timestamp, which validation refuses, they can agree by accident |
| Canonical.BraceInPathBreaksAgreement | src/crypto.rs:224-238 | a path `{body}` with another body is an input on which they differ |
| Canonical.ReplaceFills | src/crypto.rs:224-238 | one replacement fills exactly the holes of its placeholder |
| MasterPin.SoleMaster | src/master.rs:204-216 | the one row that claims mastery, or exactly why there is none |
| MasterPin.MasterPin.Set | src/master.rs:160-175 | the cell is written once |
| MasterPin.MasterPin.PinAtBoot | src/master.rs:160-181 | boot pins the sole master, and needs the uniqueness index |
| MasterPin.MasterPin.Resolve | src/master.rs:187-200 | returns the pinned id, else pins the sole master, else nothing |
| MasterPin.MasterPin.Authenticate | src/master.rs:231-262 | mastery survives only for the pinned key, and no key gains it |
| MasterPinConcurrency.OneMaster | src/master.rs:187-262 | in every interleaving with arbitrary edits all resolvers agree, and no two keys ever leave as master |
| MasterPinConcurrency.WholeResolution | src/master.rs:187-262 | an uninterrupted resolution from any state keeps the pin, or pins the sole master row if there is one, and its key leaves as master exactly if it is the pinned one |
| MasterPinConcurrency.WholeBoot | src/master.rs:160-181 | an uninterrupted resolution at boot needs a sole master row even where there is a pin, and then returns the pin |
| MasterPinConcurrency.PinIsPermanent | src/master.rs:187-200 | the pin survives every continuation |
| JsNumber.PaddedLengthExact | static/app.js:259 | the 32-bit shifts give the intended length exactly below 2^31 - 72 |
| PureCrypto.Rotr | static/app.js:250-252 | the two shifts and the or are a rotation |
| PureCrypto.Ch | static/app.js:287 | bit operations on signed words are the choice function |
| PureCrypto.Maj | static/app.js:290 | bit operations on signed words are the majority function |
| PureCrypto.PadMessage | static/app.js:256-268 | the buffer is the padded message of section 5.1.1 |
| PureCrypto.FillSchedule | static/app.js:274-281 | the loop computes the message schedule of section 6.2.2 |
| PureCrypto.RunRounds | static/app.js:283-300 | the 64 rounds, sums exact and reduced mod 2^32 |
| PureCrypto.CompressInto | static/app.js:283-310 | one block takes the hash value to the next |
| PureCrypto.WriteDigest | static/app.js:313-316 | the digest is the hash value in big-endian bytes |
| PureCrypto.Sha256 | static/app.js:256-317 | the FIPS 180-4 digest exactly below 2^31 - 72 bytes, a range error from there on |
| PureCrypto.HmacSha256 | static/app.js:321-339 | the RFC 2104 MAC for every key and message short enough for the digest |
| Fips180.ZeroBitsAreMinimal | static/app.js:258-259 | the padding is the least that section 5.1.1 allows |
| RootConstants.ConsecutivePrimes | static/app.js:234-249 | the constants' indices run over consecutive primes |
| RootConstants.RoundConstants | static/app.js:234-245 | each round constant is the cube-root fraction of its prime |
| RootConstants.InitialHashValue | static/app.js:246-249 | each initial word is the square-root fraction of its prime |
| ArgsTemplate.ExtractTemplateVariableNames | src/executor.rs:262-294 | the whole-template scan finds the names of the parse, in order |
| ArgsTemplate.SubstituteToken | src/executor.rs:305-362 | the token scan renders the parse, with the error of its first bad piece |
| ArgsTemplate.ScannersAgree | src/executor.rs:262-373 | whenever a template resolves, the whole scan finds exactly the names of its tokens, in order |
| ArgsTemplate.ArgumentsAreTheirTokens | src/executor.rs:366-373 | one argument per whitespace token, each its own parse with values inserted and never rescanned |
| ArgsTemplate.ValidatedTemplateFailure | src/api/hooks.rs:356-377 | a validated template fails only on a missing or forbidden value, or an empty or unclosed brace |
| ArgsTemplate.TokenParse | src/executor.rs:305-362 | a token parses inside the template as it does alone, up to a brace it leaves open |
| TemplateLaws.IdentifierExactly | src/executor.rs:85-93 | a parameter key is a listed letter followed by listed letters and digits |
| TemplateLaws.TrimCutsBlanks | src/executor.rs:191-200 | a text is blanks, its trimmed form without a blank at either end, and blanks |
| TemplateLaws.TrimIsTheMiddle | src/executor.rs:191-200 | no other form cuts it so |
| TemplateLaws.EffectiveAccount | src/executor.rs:191-200 | an account is the trimmed text, and none for a blank one |
| TemplateLaws.TokenLaws | src/executor.rs:366-373 | blanks in front are skipped, and a word ends at the first blank or the end |
| TemplateLaws.BraceLaw | src/executor.rs:305-362 | `${name}` parses as a reference to all between its braces |
| TemplateLaws.NameLaw | src/executor.rs:305-362 | `$name` parses as a reference to the longest identifier |
| TemplateLaws.UnclosedLaw | src/executor.rs:305-362 | a brace that is never closed is an unclosed piece |
| TemplateLaws.LiteralLaw | src/executor.rs:305-362 | a character that opens no reference stands for itself |
| TemplateLaws.NamesLaw | src/executor.rs:262-294 | the names of a template are exactly its non-empty references |
| TemplateLaws.ForbiddenExactly | src/executor.rs:245-362 | exactly which values a template refuses, character by character |
| TemplateLaws.RendersExactly | src/executor.rs:305-362 | pieces render exactly when every reference has an allowed value and no brace is left open |
| TemplateLaws.ResolvesExactly | src/executor.rs:366-373 | a template resolves exactly when each of its tokens renders |
| TemplateLaws.WritingLaw | src/executor.rs:305-362 | literals are written as they stand and references as their values, in order |
| CommandPlan.ResolveParameters | src/executor.rs:127-161 | fails exactly on an undeclared, structured or NUL-bearing value; else the pairs are exactly the supplied texts, and the defaults where none is supplied, the missing exactly the required rest, in declaration order |
| CommandPlan.LookupGives | src/executor.rs:127-161 | with distinct keys, a declared key has the text of its supplied value whatever its default, else its default, else nothing |
| CommandPlan.LookupIsTheContract | src/executor.rs:127-161 | each declared parameter has its chosen value or none, and nothing else has one |
| CommandPlan.PlanArguments | src/executor.rs:399-447 | the plan has the sudo prefix or the script, then one argument per token |
| CommandPlan.PlanExactly | src/executor.rs:399-447 | the program and its leading arguments, under sudo or not, and without a template the resolved values in order after them |
| CommandPlan.PlanWithoutTemplate | src/executor.rs:399-447 | without a template planning never fails |
| CommandPlan.ExecutionFailure | src/executor.rs:399-447 | how a hook whose template passed validation can still fail |
| ConcurrencyLimiter.ConcurrencyLimiter.Lookup | src/executor.rs:857-887 | an unchanged budget keeps its semaphore, a new or edited one gets a fresh full one, and other keys are untouched |
| ConcurrencyLimiter.Semaphore.TryAcquire | src/executor.rs:880-887 | fails exactly when no permit is free |
| ConcurrencyLimiter.Semaphore.Release | src/executor.rs:880-887 | a dropped permit is free again |
| LimiterProtocol.PermitsAreConserved | src/executor.rs:857-887 | available plus held is the budget, for every semaphore ever made, and acquisition fails exactly at none free |
| LimiterProtocol.LookupSetsTheBudget | src/executor.rs:857-887 | after a lookup the current semaphore has exactly the permits its key's record asks for, at least one |
| LimiterProtocol.CurrentPoolWithinBudget | src/executor.rs:830-887 | jobs of the current semaphore never exceed the current budget |
| LimiterProtocol.DrainedKeyWithinBudget | src/executor.rs:830-887 | once the replaced semaphores have drained, the key's jobs stay within its budget until the next edit |
| LimiterProtocol.DrainedExactly | src/executor.rs:857-887 | from a reachable state every run without an edit keeps the key's jobs within its budget if and only if the key is drained there |
| LimiterProtocol.EditedBudgetCanBeExceeded | src/executor.rs:857-887 | an edit and two requests after a first one are an input that exceeds it |
| TrustedProxies.TrustedProxies.AllFresh | src/config.rs:234-249 | true only if every name has an entry that was fresh when it was asked |
| TrustedProxies.TrustedProxies.RefreshStale | src/config.rs:251-302 | looks up exactly the stale names, or all, leaves every entry as its name's last answer says, and rebuilds the flattened view to match the map |
| TrustedProxies.TrustedProxies.Resolved | src/config.rs:304-332 | a network is in the answer if and only if it is a literal or the single address of some name's last lookup, and every name was fresh or looked up within the call |
| TrustedProxies.TrustedProxies.MergedIsBelieved | src/config.rs:281-288 | so is the view after every other critical section |
| TrustedProxies.TrustedProxies.Prime | src/config.rs:334-340 | every name is looked up within the call, and the failures are reported |
| TrustedProxies.TrustedProxies.Merge | src/config.rs:281-288 | literals first, then the addresses of the cached entries and nothing else |
| ProxyCache.RunKeepsInv | src/config.rs:86-104 | in every reachable state each entry is its name's last lookup, and failed ones are empty |
| ProxyCache.EntriesAreLastAnswers | src/config.rs:353-370 | in every reachable state an entry holds exactly one full-length network for each address of its name's last answer, in order, IPv4-mapped ones as IPv4 |
| ProxyCache.FlattenedIsBelieved | src/config.rs:281-288 | the flattened view is the literals and exactly those networks |
| ProxyCache.FailedNamesExactly | src/config.rs:251-302 | exactly the names left unresolved are reported |
| ProxyCache.UnforcedLookupsApart | src/config.rs:251-302 | two unforced lookups of a name with no forced one between are the lifetime of the earlier outcome apart |
| ProxyCache.LookupsApart | src/config.rs:251-302 | between any two lookups of a name passes at least what those in between owe, forced ones included |
| ProxyCache.SpacingExactly | src/config.rs:251-302 | lookups of given outcomes, forced or not, can be a given time apart if and only if it is at least what they owe |
| ProxyCache.NegativeLifetimeAlwaysHolds | src/config.rs:86-104 | an unforced lookup is at least the negative lifetime after every earlier one of its name, whatever was forced |
| ProxyCache.SuccessLastsUnlessForcedToFail | src/config.rs:334-340 | after a success an unforced lookup is at least the positive lifetime later unless a forced one between failed |
| ProxyCache.SpacingBreaksExactly | src/config.rs:334-340 | lookups can come sooner than the first outcome's lifetime if and only if together they owe less |
| ProxyCache.ForcedLookupBreaksSpacing | src/config.rs:334-340 | a success, a forced failure and an unforced lookup do so exactly when the negative lifetime is the shorter |
| TrustedProxies.RefreshIsCurrent | src/config.rs:251-302 | after a refresh every name was fresh at its start or looked up since |
| ClientAddress.UntrustedPeerIsTheClient | src/config.rs:421-440 | an untrusted peer is its own client whatever the headers say |
| ClientAddress.LastUntrustedIsTheLast | src/config.rs:421-460 | the walk stops at the untrusted address that has only trusted ones to its right |
| ClientAddress.AddressesExactly | src/config.rs:425-449 | the addresses of a header are exactly what its parts, trimmed and not empty, parse to and stand for |
| ClientAddress.RealIpDecides | src/config.rs:450-460 | from a trusted peer whose forwarded header is absent or names trusted addresses alone, the client is what the trimmed X-Real-IP stands for if it parses, and the peer otherwise |
| ClientAddress.ForwardedDecides | src/config.rs:425-449 | where the header names an untrusted address, the client is one of those, and X-Real-IP changes nothing |
| ClientAddress.PrependingChangesNothing | src/config.rs:421-460 | text put in front of a header that names an untrusted address changes nothing |
| ClientAddress.ChainResolvesToTheClient | src/config.rs:421-460 | through any number of trusted hops an untrusted client is resolved to itself, whatever header it sent |

## Left out

- HTTP, extractors, routing, error texts, the audit log, settings and health endpoints: plumbing around the transitions.
- SQL and migrations: tables are maps, and each handler is one atomic step; the row order of lists is kept only in `ListApiKeys`.
- Authentication of the caller is the subject of the signature modules; the state machine starts from an authenticated key.
- `hmac_mode` has a single value and no field; key prefixes and public key ids are part of the credential they belong to.
- Path, account-name and CIDR syntax, JSON parsing, sealing, id parsing and name matching are functions of an environment.
- Running a script is drawn: its refusals and its output are inputs of the step; paging of the history is not modelled.
- A caller is taken to be able to authenticate; a manager without a signing secret cannot act on a signed-only server.
- VerbSpreadsExactly: assumes that some text names the hook by its id and that ids never run out.
- SessionsTellExactly: the requests of one caller; another caller's requests may of course reveal the hook or key to it.
- HookIndistinguishable: hooks are not named like ids, which would make a name find another hook once its row is gone.
- SignatureUses: the default canonical string; a template that leaves the timestamp out has no bound.
- InterleavedUses: a stall of a whole window or more between a call's clock read and its insertion has no bound.
- The pinned master is a constant of the state machine; a row that claims mastery without being pinned acts as an ordinary key.
- The child environment of a command plan, process groups, output capture and script diagnostics.
- Secret sealing and random generation: an abstract function and fresh ids.
- DNS and CIDR arithmetic: an arbitrary answer per lookup and a membership predicate; repeated X-Forwarded-For lines.
- Reading the request body between the two clock reads appears only as the longest wait D of the bounds.
- Lock poisoning is a flag; the panics that set it are not modelled.
- The user interface around `PureCrypto`, the batching of the retention queries, and environment parsing.
