# xray-vps-manager: a verified model of its state machine, its store and its protocols

The manager keeps every client twice: as items in the inbounds of Xray's `config.json` and as a record with a map of
credentials in `manager.db`, whose fields `connection`, `client`, `protocol` and `enabled` repeat one of the
credentials. Every command edits both copies by hand and then commits them to two places. This project models those
commands, the optimistic store under them, the commit of the two places, and the other protocols of the manager that
can fail half-way, and proves what they keep over every run.

What the model is made of:

* **The two copies** (`ClientState`, `Credentials`, `Switching`, `Crud`, `Lifecycle`, `Allocation`, `Connections`,
  `Removal`, `Policy`, `Enforcement`, `Ticks`, `Access`, `Runs`, `Effects`, `Terms`, `Examples`). `Config` and `Db` are classes with the loaded
  inbounds and the loaded records; the commands are methods that change them in place, with the loops of the source,
  and each is proved against a function or relation on `State`. `Mirror` says that the two copies agree: an inbound has
  exactly one item of a client when the client's credential for that inbound is enabled, none otherwise, and the item
  carries the stored secret. `WellFormed` says that managed tags are distinct, that every record has a credential,
  that every credential has its inbound, and that the repeated fields are in sync. `Consistent` is both.
* **The store** (`Store`, `Snapshots`, `Persistence`, `Durability`): snapshots with their originals, union-style
  upserts, conflict checks, explicit deletions with their foreign-key effects.
* **Two resources and their faults** (`Commit`, `Commands`, `ServerEnv`, `Restore`): every call may raise before or
  after it took effect; compensations may fail too.
* **Other protocols** (`Tailing`, `Bypass`, `BypassRuns`): log tailing with part-way failures and rotation; prompts
  outside a lock with re-validation inside it.
* **Algorithms** (`Email`, `Calendar`, `Limits`, `Burst`, `Normalize`, `Proto`, `Arguments`).

The main results: `Runs.RunKeepsGood` and `Runs.NoDrift` (no drift over any sequence of commands),
`Terms.SecretNeverChanges`, `Terms.AgreementNeverChanges` and `Terms.NothingIsStuck` (what no sequence of commands changes),
`Durability.DiskRunKeepsGood` (the same for what is on disk, under every schedule of faults outside three named windows,
since every command's save stores exactly the state it made), `Commit.SaveConfigRestartXrayAndDb` and
`Commit.BothOrNeither` (every fault schedule), `Ticks.DisabledUntilReset` and
`Ticks.EnabledAtFirstChance` (the traffic policy over any run of ticks), `Snapshots.NoLostUpdate` and
`Snapshots.SecondWriterIff`, `Snapshots.DisjointSavesCommute`, `Persistence.RemovalIsStored`, `Restore.RestoreWithWritersStopped`,
`Tailing.RunStaysExact`, `BypassRuns.RunStaysSafe`, `BypassRuns.OnlyConfirmedIsDisplaced` and `BypassRuns.RunKeepsRules`,
`Burst.RollingBurst`, `Normalize.NothingLostIff`, `Proto.ParseConcat`, `Arguments.AddRefines`.

## Where the code does not do what one would expect

Each of these is proved, with the exact condition and, for faults that depend on the input, with an example.

* The last Reality connection is protected by looking at the recorded security, which the TLS loop of
  `ensure_connections` overwrites for a Reality inbound with a `vless-tls` tag and the xhttp transport; such an inbound
  can be removed although it is the last one (`Removal.RealityStays`, `Removal.LastRealityCanGo`). The manager itself
  never creates one, and the commands modelled here keep it that way (`Connections.AddConnectionKeeps`, `Removal.RemoveConnectionLayout`).
* The port check of `update-trojan-connection` skips every inbound with the same tag, also an unmanaged one
  (`Connections.TrojanUpdatePorts`, `Connections.NamesakePortIsTaken`).
* `enforce_traffic_limits` re-enables before it disables; when one client that should return has a credential that
  cannot be enabled, it raises and nobody is disabled (`Enforcement.EnforceTrafficLimits`,
  `Examples.OneStuckClientBlocksEnforcement`). The commands themselves never bring such a credential about
  (`Terms.NothingIsStuck`).
* The new configuration is left with the old database in three windows: an exception that arrives when `config.json` has
  been replaced but the guarded block has not been entered, an interrupt inside the transaction before COMMIT, and a
  compensation that cannot write the old file back (`Commit.BothOrNeither`).
* The undo of a failed Caddy step restores the configuration before the database; if the database cannot follow, the
  new database is left with the old configuration. Exceptions other than the listed ones are not undone at all
  (`Commit.UpdateTrojanWithCaddy`).
* `bypass add` for an enabled tag with another region leaves the rule of the old region; `disable` and `remove` of a
  disabled route take away the rule of another route that is active in the region; `target` can enable a regionless
  route without its rule (`BypassRuns.AddRules`, `DisableRules`, `RemoveRules`, `TargetRules`, over runs
  `BypassRuns.RunKeepsRules`, and the examples after them). A route without a region can be neither disabled nor removed
  (`BypassRuns.RegionlessRefused`, over runs `BypassRuns.RegionlessStays`).
* Re-keying credentials while iterating over a copy loses a credential on swaps, on some chains and on collisions
  (`Normalize.NothingLostIff`, `Normalize.KeptIff`, `Normalize.SwapLosesOne`). Normalizing is not idempotent when the first
  call empties the dict, which can happen to one that holds a credential, and the repeated fields supply a credential to
  the second (`Normalize.NormalizeTwice`, `Normalize.EmptyIff`, `Normalize.SecondCallRefills`).
* The two email decoders disagree exactly when there is a tag but no creation stamp (`Email.DecodersAgree`,
  `Email.DecodersDisagree`).
* A Protocol Buffers payload of fixed width or a string that is cut off in its payload is accepted and comes out short
  (`Proto.CutFieldIff`, `Proto.CutListIff`, `Proto.CutStringIsAccepted`).
* `update-trojan-connection` accepts `--domain` and `--tls-domain` together; the parser keeps only one of them
  (`Arguments.UpdateRefines`, `Arguments.FormSeesTwoDomains`, `Arguments.ParserKeepsSecondDomain`).
* A log file that was emptied, or begun anew under a reused inode, is taken for the old one once it has grown to the
  stored offset; its lines before that offset never reach the windows (`Tailing.RunStaysExact`, `Tailing.FirstPass`,
  `Tailing.TruncationLosesLine`).

## Model

| member | source | states |
|---|---|---|
| ClientState.FirstManagedSpec | xray_vps_manager/xray/config.py:121-143 | The search through the managed inbounds, Reality first, then TLS, then Trojan, finds one that fits the query if there is any, and none otherwise. |
| ClientState.FindSpec | xray_vps_manager/xray/config.py:211-215 | The inbound found under a tag is managed and has that tag; nothing is found exactly when no managed inbound has it. |
| ClientState.SyncIdempotent | xray_vps_manager/clients/credentials.py:153-167 | Synchronising the repeated fields twice is synchronising them once. |
| ClientState.SyncAbsorbs | xray_vps_manager/clients/credentials.py:153-167 | Synchronising in between does not matter as long as no credential appears or disappears. |
| ClientState.SyncRepeats | xray_vps_manager/clients/credentials.py:153-167 | A synchronised record repeats the credential it names: protocol, email, password, flow and id; it keeps the one it named, or names the least one, and nothing else of it changes. |
| ClientState.SyncedIff | xray_vps_manager/clients/credentials.py:153-167 | Synchronising leaves a record alone exactly when it repeats the credential it names. |
| ClientState.TrimKeepsName | xray_vps_manager/clients/credentials.py:170-174 | Trimming a stored email never cuts into a valid client name. |
| ClientState.ActiveIsStored | xray_vps_manager/xray/config.py:769-774 | In a consistent state whoever has an item in a managed inbound is recorded, with that credential enabled. |
| ClientState.ConsistentFrame | xray_vps_manager/clients/credentials.py:234-278 | A change confined to some clients keeps the whole state consistent if it does so for those clients. |
| Credentials.UpsertActive | xray_vps_manager/clients/credentials.py:234-264 | Replaces the client's first item or appends one and writes the credential back; raises before anything changed. |
| Credentials.UpsertedMirrors | xray_vps_manager/clients/credentials.py:182-205 | The item written belongs to the client, carries the secret that the credential now stores, and the credential is enabled. |
| Credentials.UpsertedKeeps | xray_vps_manager/clients/credentials.py:182-264 | The enabled credential describes its inbound and keeps its secret, its ids, its email and its creation stamp; a missing id is filled in from the record. |
| Credentials.PutItemEffect | xray_vps_manager/clients/credentials.py:247-255 | Putting an item changes the first item of that client under that tag and nothing else anywhere. |
| Credentials.RemoveActive | xray_vps_manager/clients/credentials.py:267-278 | Removes every item of the client under the tag and reports whether there was one, and the first one. |
| Credentials.DropItemsEffect | xray_vps_manager/clients/credentials.py:267-278 | After the removal the client has no item under the tag and everything else is as it was. |
| Switching.AdoptedAsActive | xray_vps_manager/clients/crud.py:155-169 | Exactly the active clients can be adopted; the record is enabled, repeats the first item found and has no deadline, limit or mark. |
| Switching.NobodyToAdopt | xray_vps_manager/clients/crud.py:155-169 | In a consistent state nobody is ever adopted from the configuration: whoever is active has a record. |
| Switching.DisableTags | xray_vps_manager/clients/crud.py:340-352 | The loop takes the items of exactly the selected credentials out, remembers them in the record, and reports which there were. |
| Switching.EnableTags | xray_vps_manager/clients/crud.py:387-402 | The loop enables the selected credentials in both copies; when it raises, some selected credential cannot be enabled and the copies stop at the same point. |
| Switching.DisabledMirrors | xray_vps_manager/clients/crud.py:340-352 | A client whose copies agreed still has agreeing copies after any selection was disabled. |
| Switching.EnabledMirrors | xray_vps_manager/clients/crud.py:387-402 | Likewise after any selection was enabled. |
| Crud.DisableClient | xray_vps_manager/clients/crud.py:317-364 | Disables one credential or all in both copies and reports which were on; raises, changing nothing, exactly when the client or credential is unknown or nothing selected is enabled in either copy. |
| Crud.DisableKeeps | xray_vps_manager/clients/crud.py:317-364 | Disabling keeps the state consistent. |
| Crud.EnableClient | xray_vps_manager/clients/crud.py:367-414 | Enables one credential or all; raises exactly when the client or credential is unknown, access is over, the limit is exceeded, something selected cannot be enabled or nothing needs to be, and says which; both copies stop at the same point. |
| Crud.EnablesIff | xray_vps_manager/clients/crud.py:367-398 | A consistent client can be enabled exactly when access is open, the limit is not exceeded, and among the credentials asked for one is disabled and every disabled one has a usable secret. |
| Crud.EnableKeeps | xray_vps_manager/clients/crud.py:367-414 | Enabling keeps the state consistent. |
| Crud.FailedEnableKeeps | xray_vps_manager/clients/crud.py:387-402 | Even an enable that fails half-way leaves the copies in memory consistent. |
| Lifecycle.AddClient | xray_vps_manager/clients/crud.py:235-296 | Adds a credential, with its item only when the client is enabled and not expired; each error condition is exact and changes nothing. |
| Lifecycle.AddKeeps | xray_vps_manager/clients/crud.py:235-296 | Adding keeps the state consistent. |
| Lifecycle.RemoveClient | xray_vps_manager/clients/crud.py:299-314 | Removes every item of the client and its record; fails exactly when neither exists. |
| Lifecycle.RemoveKeeps | xray_vps_manager/clients/crud.py:299-314 | Removing keeps the state consistent. |
| Lifecycle.RotateTrojanPassword | xray_vps_manager/clients/crud.py:451-489 | The stored password and that of the live item, if any, become the new one; a policy violation changes nothing. |
| Lifecycle.RotateKeeps | xray_vps_manager/clients/crud.py:451-489 | Rotation keeps the state consistent: item and record have the same password. |
| Lifecycle.MoveClient | xray_vps_manager/clients/crud.py:527-614 | Moves the only credential, with its live item, to another inbound of the same protocol; each error condition is exact and changes nothing. |
| Lifecycle.MoveFacts | xray_vps_manager/clients/crud.py:527-557 | A consistent client with one credential is moved from that very credential, and is live exactly when it is enabled. |
| Lifecycle.MoveKeeps | xray_vps_manager/clients/crud.py:527-614 | Moving keeps the state consistent. |
| Effects.AddEffect | xray_vps_manager/clients/crud.py:235-296 | The client gains exactly one credential with an id, or a valid password, of its own, live with one item when the client is enabled and not expired; a new record has the deadline and payment type asked for, a known one keeps its terms; nobody else is affected. |
| Effects.DisableEffect | xray_vps_manager/clients/crud.py:317-364 | The selected credentials are off in both copies and keep their secrets, the others untouched, and the client is enabled exactly when one of those is; the stamp is set when nothing is left; nobody else is affected. |
| Effects.EnableEffect | xray_vps_manager/clients/crud.py:367-414 | The selected credentials are live with one item each; those that were off describe their inbound and keep their secret, all others are untouched, and no mark is left; nobody else is affected. |
| Effects.DisableThenEnable | xray_vps_manager/clients/crud.py:317-414 | Disabling a live credential and enabling it again gives the client an item with the id or the (trimmed) password it had. |
| Effects.RemoveEffect | xray_vps_manager/clients/crud.py:299-314 | No trace of the client is left in either copy; nobody else is affected. |
| Effects.RotateEffect | xray_vps_manager/clients/crud.py:451-489 | Exactly one Trojan credential changes, and in it the password only: record, repeated fields and live item have the new one, and it is as live as before. |
| Effects.MoveEffect | xray_vps_manager/clients/crud.py:527-614 | The client has exactly the credential for the target, as live as before and with the secret it had, live or disabled; ids, stamps and terms follow; nobody else is affected. |
| Effects.MoveThenEnable | xray_vps_manager/clients/crud.py:527-614 | Moving a disabled client and enabling it there gives it one item with the (trimmed) password or the id it had. |
| Effects.MovedCanBeEnabled | xray_vps_manager/clients/crud.py:527-614 | A disabled client that was moved can be enabled exactly when its access and its stored secret allow it. |
| Effects.AddsIff | xray_vps_manager/clients/crud.py:172-191 | In a consistent state `add` succeeds exactly under a tag of a managed inbound for which the client has no credential, with a valid password when it is Trojan. |
| Effects.RotatesIff | xray_vps_manager/clients/crud.py:417-448 | `rotate-trojan-password` succeeds exactly for the Trojan credential asked for, or for the only one, with a valid password. |
| Effects.MovesIff | xray_vps_manager/clients/crud.py:527-575 | `move` succeeds exactly when the only credential is for another inbound of the same protocol, and, if disabled, has a secret to move. |
| Allocation.NextLocalPort | xray_vps_manager/clients/connections.py:322-338 | Returns the least free port from the start on; fails exactly when the start and all ports above it up to 65535 are taken. |
| Allocation.DecimalInjective | xray_vps_manager/clients/connections.py:353-386 | Different indices print differently, so the search never meets a candidate twice. |
| Allocation.NextTag | xray_vps_manager/clients/connections.py:353-386 | The unbounded search ends with the first candidate that is not taken. |
| Allocation.NextTagUnique | xray_vps_manager/clients/connections.py:353-386 | There is only one such candidate. |
| Allocation.RealityTagIsNew | xray_vps_manager/clients/connections.py:353-362 | The Reality search considers VLESS tags only, and its result is nevertheless new among all managed tags. |
| Connections.EnsureConnections | xray_vps_manager/clients/connections.py:134-277 | The three loops bring the connection records up to date and touch nothing else; they raise exactly when no inbound is managed. |
| Connections.EnsuredAt | xray_vps_manager/clients/connections.py:138-264 | With distinct tags the three loops act on each inbound's record independently of all others. |
| Connections.EnsureIdempotent | xray_vps_manager/clients/connections.py:134-277 | Calling it again changes nothing. |
| Connections.EnsuredTells | xray_vps_manager/clients/connections.py:134-264 | After ensuring, every managed inbound has a record with its security, a kept or default name, and the port at which clients reach it: its own, or the public one on record, which is kept. |
| Connections.DefaultNames | xray_vps_manager/xray/config.py:242-255 | The default names of tags; different kinds of tags can be given one name. |
| Connections.AddConnection | xray_vps_manager/clients/connections.py:526-842 | Appends an inbound without clients under the first free tag and records it; refuses a taken name or port. |
| Connections.AddConnectionKeeps | xray_vps_manager/clients/connections.py:526-842 | A new connection of any of the four kinds keeps the state consistent, the ports distinct, and a VLESS and a Reality connection in place. |
| Connections.AddedTells | xray_vps_manager/clients/connections.py:526-842 | The new inbound is on the port asked for, open unless Caddy serves it; its record has the name and public port asked for, and ensuring leaves them. |
| Connections.RenameConnection | xray_vps_manager/clients/connections.py:1114-1127 | Changes one record's name and keeps distinct names distinct; raises exactly when the new name is blank or taken or the identifier names no single connection. |
| Connections.ResolvesTo | xray_vps_manager/clients/connections.py:1165-1183 | An identifier is resolved to the tag it is, or else to the only connection of that name. |
| Connections.RenamedIsFound | xray_vps_manager/clients/connections.py:1114-1127 | Once renamed to a free name that is no tag, a connection is found under it. |
| Connections.UpdateTrojanConnection | xray_vps_manager/clients/connections.py:1017-1111 | Puts the inbound and its record on new ports after both conflict checks; the refusals are exact and change nothing but what ensuring changes. |
| Connections.AskedPortsRefusedIff | xray_vps_manager/clients/connections.py:341-350 | With both ports asked for, the update is refused exactly when another tag's inbound is on the local port or something listens publicly on the public one. |
| Connections.TrojanUpdateAsked | xray_vps_manager/clients/connections.py:1064-1092 | The ports asked for are the ones the inbound and its record end up with; without one the port stays; clients, name and other inbounds stay. |
| Connections.TrojanUpdateKeeps | xray_vps_manager/clients/connections.py:1064-1092 | New ports keep the state consistent. |
| Connections.TrojanUpdatePorts | xray_vps_manager/clients/connections.py:1004-1005 | Ports stay distinct exactly when no other inbound under the same tag has the new one. |
| Connections.NamesakePortIsTaken | xray_vps_manager/clients/connections.py:1004-1005 | A foreign inbound under the same tag onto whose port the connection is moved. |
| Connections.TrojanUpdatePublicPort | xray_vps_manager/clients/connections.py:341-350 | No other inbound that listens publicly is on the connection's public port afterwards. |
| Removal.RemoveConnection | xray_vps_manager/clients/connections.py:845-900 | Removes the inbounds of a tag, its record and its credentials, or is refused under an exact condition; reports exactly which clients went and which only lost this credential. |
| Removal.UsersAre | xray_vps_manager/clients/connections.py:1130-1144 | The clients of a connection are those with a named item in its inbound or a credential for it. |
| Removal.DetachAll | xray_vps_manager/clients/connections.py:865-880 | Every named client loses the credential; exactly those left without any lose their record. |
| Removal.RemoveConnectionKeeps | xray_vps_manager/clients/connections.py:845-880 | Removing a connection keeps the state consistent. |
| Removal.KeepServes | xray_vps_manager/clients/connections.py:858-863 | All other tags are served as before, the removed one no more. |
| Removal.RemovedCredential | xray_vps_manager/clients/connections.py:866-880 | Every client keeps exactly its credentials for the other connections. |
| Removal.VlessStays | xray_vps_manager/clients/connections.py:851-853 | A permitted removal leaves a VLESS connection. |
| Removal.RealityStays | xray_vps_manager/clients/connections.py:849-856 | A permitted removal leaves a Reality connection exactly when the removed one is not the last Reality inbound and a TLS one at once. |
| Removal.RemovesIff | xray_vps_manager/clients/connections.py:849-856 | In the manager's layout a removal is refused exactly when it would take the last VLESS or the last Reality connection away. |
| Removal.LastRealityCanGo | xray_vps_manager/clients/connections.py:849-856 | Two inbounds from which the last Reality connection can be removed. |
| Removal.RemoveConnectionLayout | xray_vps_manager/clients/connections.py:845-863 | In the layouts that the manager creates, ports stay distinct and a VLESS and a Reality connection remain. |
| Policy.DisableForPolicy | xray_vps_manager/clients/status.py:110-133 | Takes every credential of a client out of service and marks its record, touching nobody else. |
| Policy.EnableForPolicy | xray_vps_manager/clients/status.py:75-87 | Puts every credential of a client into service; fails exactly when one of them cannot be enabled. |
| Policy.StuckIff | xray_vps_manager/clients/status.py:75-87 | A consistent client cannot be enabled exactly when one of its disabled credentials has no usable secret. |
| Policy.PolicyDisabledKeeps | xray_vps_manager/clients/status.py:110-133 | The disabled client's copies agree. |
| Policy.PolicyEnabledKeeps | xray_vps_manager/clients/status.py:75-87 | The enabled client's copies agree. |
| Policy.HalfEnabledKeeps | xray_vps_manager/clients/status.py:75-87 | Even when enabling raises half-way, both copies stopped at the same credential and the state is consistent. |
| Policy.ActiveIsEnabled | xray_vps_manager/clients/status.py:256-266 | In a consistent state a client is active somewhere exactly when its record says enabled. |
| Enforcement.CollectDue | xray_vps_manager/clients/status.py:256-266 | Collects exactly the recorded clients that are active in a managed inbound and break the rule. |
| Enforcement.DisableDue | xray_vps_manager/clients/status.py:268-283 | Disables and marks exactly the due clients. |
| Enforcement.ReactivateClients | xray_vps_manager/clients/status.py:238-254 | Re-enables exactly the clients that were disabled for traffic in another period, are under their limit and not expired; raises exactly when one of them cannot be enabled. |
| Enforcement.EnforceTrafficLimits | xray_vps_manager/clients/status.py:224-288 | Both phases together, described client by client; raises exactly when a returning client cannot be enabled. |
| Examples.OneStuckClientBlocksEnforcement | xray_vps_manager/clients/status.py:238-254 | A consistent state in which a client is over its limit and enforcement raises on another one. |
| Enforcement.DueUnchanged | xray_vps_manager/clients/status.py:238-266 | Re-enabling does not change who is due, and nobody is re-enabled and disabled in one run. |
| Enforcement.ExpireDueClients | xray_vps_manager/clients/status.py:291-325 | Disables and marks exactly the active clients whose access is over. |
| Ticks.EnforceKeeps | xray_vps_manager/clients/status.py:224-288 | Enforcement keeps the state consistent. |
| Ticks.ExpireKeeps | xray_vps_manager/clients/status.py:291-325 | So does expiry. |
| Ticks.NobodyOverLimit | xray_vps_manager/clients/status.py:224-288 | After enforcement no client that is active in a managed inbound is over its limit. |
| Ticks.NobodyExpired | xray_vps_manager/clients/status.py:291-325 | After expiry no client whose access is over is active. |
| Ticks.ReturningIsNotDue | xray_vps_manager/clients/status.py:238-266 | Nobody is to be re-enabled and disabled at the same time. |
| Ticks.EnforceTwice | xray_vps_manager/clients/status.py:224-288 | An immediate second run re-enables and disables nobody and changes nothing. |
| Ticks.SecondRunSucceeds | xray_vps_manager/clients/status.py:238-254 | The second run cannot raise. |
| Ticks.DueIsDisabledAtTick | xray_vps_manager/clients/status.py:276-283 | A client that is disabled for traffic is marked with the period and the reset time of that instant. |
| Ticks.ReturnsFromReset | xray_vps_manager/clients/status.py:238-250 | From then on it may return exactly at instants at or after the reset at which it is under its limit and not expired. |
| Ticks.DisabledUntilReset | xray_vps_manager/clients/status.py:238-250 | Over any run of ticks its record does not change before the first such tick. |
| Ticks.EnabledAtFirstChance | xray_vps_manager/clients/status.py:251-254 | At the first such tick, unless that tick raises, all its credentials are live and nothing marks it as disabled. |
| Ticks.TickRunKeeps | xray_vps_manager/clients/status.py:224-288 | Every state of a run of ticks is consistent. |
| Access.Reconcile | xray_vps_manager/clients/status.py:136-173 | Over the limit, expired or neither decides, in this order, between the two ways of disabling and enabling. |
| Access.ReconcileKeeps | xray_vps_manager/clients/status.py:136-173 | Reconciliation keeps the state consistent. |
| Access.ReconcileDecides | xray_vps_manager/clients/status.py:136-173 | Afterwards the client is active exactly when it is under its limit and not expired. |
| Access.UpdateAccess | xray_vps_manager/clients/status.py:176-221 | Sets or extends the deadline to exactly the day asked for, adopting an unrecorded active client, and reconciles; raises exactly when the client is unknown or is to be enabled and cannot be, and says where both copies stopped. |
| Access.UpdatedDeadline | xray_vps_manager/clients/access.py:51-93 | The record has no deadline, or midnight so many days after today, or, when extended, after the later of today and the old deadline; extending never takes a day away. |
| Access.OverLimitIsMarked | xray_vps_manager/clients/status.py:149-160 | A client that `set-days` or `extend-days` finds over its limit is marked with this period, its usage and its reset, as the periodic job would, so that it may return from that reset on. |
| Access.ExpiredIsMarked | xray_vps_manager/clients/status.py:162-169 | A client found past its deadline is marked with that and carries no mark of a limit. |
| Access.UpdateAccessKeeps | xray_vps_manager/clients/status.py:176-221 | A change of access keeps the state consistent. |
| Access.ExtendingServes | xray_vps_manager/clients/access.py:84-93 | Extending by at least a day puts the client into service unless its traffic limit stands in the way. |
| Runs.StepKeeps | xray_vps_manager/clients/crud.py:235-614 | Every command keeps the copies in agreement, the records true to their inbounds, and a VLESS and a Reality connection. |
| Runs.RunKeepsGood | xray_vps_manager/clients/crud.py:235-614 | So does every sequence of commands, policy jobs and connection commands, failed ones included. |
| Runs.NoDrift | xray_vps_manager/clients/crud.py:235-614 | At every moment of a run a client has an item under a tag exactly when that credential is enabled, at most one, Trojan passwords agree, and the record repeats one of its credentials. |
| Runs.RunKeepsPorts | xray_vps_manager/clients/connections.py:322-338 | Ports stay pairwise distinct over every run in which Trojan updates avoid the ports of unmanaged namesakes. |
| Runs.AlwaysCallable | xray_vps_manager/clients/crud.py:527-540 | What the commands ask of the state holds in every consistent state. |
| Terms.SecretNeverChanges | xray_vps_manager/clients/crud.py:235-614 | Over any run in which a client is not rotated, a credential that stays keeps its secret: no other command breaks the links handed out. |
| Terms.AgreementNeverChanges | xray_vps_manager/clients/status.py:110-325 | Over any run without `set-days` and `extend-days` for a client, its deadline, its limit and its creation stamp stay. |
| Terms.RunStaysUsable | xray_vps_manager/clients/credentials.py:182-205 | If every stored secret is usable at the start and new ids are not empty, every stored secret is usable at every moment of a run. |
| Terms.NothingIsStuck | xray_vps_manager/clients/status.py:238-254 | Then enforcement never raises, and `enable` raises only because of the deadline, the limit, or nothing to enable. |
| Terms.OverLimitMark | xray_vps_manager/clients/status.py:276-283 | The mark of a client disabled for traffic: instant, period, bytes used in it, at least the limit, and its reset. |
| Terms.ExpiredIsMarked | xray_vps_manager/clients/status.py:317-323 | The mark of a client disabled for its deadline; the rest of its earlier mark stays. |
| Examples.ServerIsGood | xray_vps_manager/clients/connections.py:389-436 | A server with one Reality connection and one live client meets the premises of the results about runs. |
| Examples.ServerIsUsable | xray_vps_manager/clients/credentials.py:182-205 | Its one secret is usable. |
| Examples.LimitAtNewYear | xray_vps_manager/clients/limits.py:121-140 | On the last day of a year that client can be over its limit, and it may return at midnight. |
| Store.WriteSection | xray_vps_manager/clients/repository.py:201-218 | Saves exactly the changed records of a section; stops exactly when a changed record is no longer stored as it was loaded. |
| Store.StripTwice | xray_vps_manager/clients/repository.py:110-121 | Which credential the repeated fields follow does not depend on whether deletions are synchronised one by one or once. |
| Store.Database.DeleteCredential | xray_vps_manager/clients/repository.py:110-121 | Deletes one credential and synchronises the rest; refuses to delete the last one. |
| Store.Database.SaveCredential | xray_vps_manager/clients/repository.py:92-107 | Stores one credential and synchronises the repeated fields. |
| Store.Database.DeleteConnections | xray_vps_manager/clients/repository.py:147-148 | Each deleted connection takes its credentials along and clears the clients that name it. |
| Store.Database.ApplyDeletions | xray_vps_manager/clients/repository.py:142-150 | Succeeds exactly when no client would lose its last credential, and then the result does not depend on the order within each kind. |
| Store.DeletionsKeepReferences | xray_vps_manager/clients/repository.py:142-150 | If credentials and clients refer to stored connections only, they do so after any deletions. |
| Snapshots.LoadDb | xray_vps_manager/clients/repository.py:124-158 | A snapshot remembers what was loaded. |
| Snapshots.SaveDb | xray_vps_manager/clients/repository.py:197-248 | Succeeds exactly when the checks pass, stores the upserts and deletions as a whole, and refreshes the snapshot; otherwise nothing changes. |
| Snapshots.NoLostUpdate | xray_vps_manager/clients/repository.py:210-217 | A save without deletions succeeds exactly when every record that the snapshot changed is still stored as it was loaded. |
| Snapshots.SavedClientReads | xray_vps_manager/clients/repository.py:64-66 | An unchanged client is read as before; a changed one is read back as it was in memory exactly when memory left none of its credentials out. |
| Snapshots.DisjointSavesCommute | xray_vps_manager/clients/repository.py:197-220 | Two snapshots that changed different records both save, in either order, to the same store. |
| Snapshots.SecondWriterIff | xray_vps_manager/clients/repository.py:210-217 | After a first save the second snapshot saves exactly when it changes no connection or route that the first changed, and no client whose change shows in the store. |
| Snapshots.NothingElseDisappears | xray_vps_manager/clients/repository.py:136-150 | Nothing disappears but what the deletions name, and credentials with their client or connection. |
| Snapshots.SaveThenDelete | xray_vps_manager/clients/repository.py:92-121 | Deleting a credential that was just saved leads back to what was read before. |
| Snapshots.RestoreAfterUpdate | xray_vps_manager/clients/repository.py:251-258 | The undo saves the previous records against the committed ones and deletes what the update had introduced. |
| Snapshots.UndoIff | xray_vps_manager/clients/repository.py:251-258 | When no client changed, the undo goes through exactly when nothing else was stored since, and then it leads back exactly. |
| Snapshots.WriterBlocksUndo | xray_vps_manager/clients/repository.py:199-200 | A writer whose change shows in the store between an update and its undo makes the undo fail. |
| Persistence.RemovalIsStored | xray_vps_manager/commands/client.py:1016-1021 | For `remove-connection` the upserts and the explicit deletions leave exactly the state in memory. |
| Persistence.MoveIsStored | xray_vps_manager/commands/client.py:1416-1421 | Likewise for `move-connection`. |
| Persistence.DeletionsAreNeeded | xray_vps_manager/clients/repository.py:64-66 | Without the deletions a detached client would keep the removed credential. |
| Persistence.NothingStale | xray_vps_manager/clients/repository.py:142-150 | Afterwards no stored client is without credentials or mentions the removed tag. |
| Commands.CommitStep | xray_vps_manager/commands/client.py:209-231 | Once memory holds what any command made, committing it under any schedule is a step of a run on disk, and outside the three windows the disk stays free of drift. |
| Commands.CmdConnectionRemove | xray_vps_manager/commands/client.py:1007-1021 | On disk the connection is gone from both copies, or nothing has changed; without faults it always succeeds. |
| Commands.CmdMoveConnection | xray_vps_manager/commands/client.py:1406-1421 | On disk the client is moved in both copies, or nothing has changed; without faults it always succeeds. |
| Commit.SaveConfigRestartXrayAndDb | xray_vps_manager/commands/client.py:209-231 | For every fault schedule exactly what both halves are, whether the command succeeds, with which kind of exception it stops, and whether the undo is complete. |
| Commit.NeverNewUnderOld | xray_vps_manager/commands/client.py:214-230 | A new database is never left under the old configuration. |
| Commit.BothOrNeither | xray_vps_manager/commands/client.py:209-231 | The halves end up both new or both old outside three windows of schedules, and in these the new configuration is left with the old database. |
| Commit.Server.RestoreConfigBackup | xray_vps_manager/commands/client.py:196-200 | Exactly what file and running configuration are after the compensation, also when it fails. |
| Commit.UpdateTrojanWithCaddy | xray_vps_manager/commands/client.py:961-971 | For every schedule which outcome, and for every outcome what configuration, database and Caddy site are: all new, all old after a complete undo, and each mixed case with its cause. |
| Durability.GrowthIsStored | xray_vps_manager/clients/repository.py:197-220 | A state that lost no record and no credential is stored as a whole by upserts alone. |
| Durability.StepIsStored | xray_vps_manager/commands/client.py:1338-1421 | After every successful command the save is not refused and stores exactly the state in memory. |
| Durability.CommittedLoads | xray_vps_manager/commands/client.py:209-231 | Under any schedule outside the three windows the next command loads what this one made, or what it found. |
| Durability.DiskRunKeepsGood | xray_vps_manager/commands/client.py:209-231 | Over any run of commands, each under any schedule of faults outside the three windows, what every command loads from disk is free of drift. |
| ServerEnv.MergedRestoredServerEnv | xray_vps_manager/commands/backup.py:527-544 | Host keys come from the current host, trimmed and only if not blank; everything else comes from the archive. |
| ServerEnv.RollbackForgetsArchive | xray_vps_manager/commands/backup.py:137-141 | Rolling back forgets the archive, except for a blank address in the file next to one in the process environment. |
| ServerEnv.HostWins | xray_vps_manager/commands/backup.py:527-544 | Whatever archives claim about a host key, the result is the host's. |
| ServerEnv.RollbackRestoresEnv | xray_vps_manager/commands/backup.py:527-559 | Without an address in the process environment, rolling back gives the original file exactly when its host keys are trimmed and not blank. |
| Restore.Host.ApplyRestore | xray_vps_manager/commands/backup.py:718-746 | An incomplete archive changes nothing; success means that every file is as in the archive. |
| Restore.RollbackRestore | xray_vps_manager/commands/backup.py:776-790 | A successful rollback gives the files of the pre-restore backup, whatever Xray wrote when it was stopped. |
| Restore.RestoreWithWritersStopped | xray_vps_manager/commands/backup.py:801-861 | Success is reported exactly when every step worked; before the first copy nothing changes but what Xray wrote; a later failure with a successful rollback leads back to the snapshot; the units are restarted once, last. |
| Restore.CleanEnvRolledBack | xray_vps_manager/commands/backup.py:547-559 | With clean host keys a rollback restores `server.env` itself. |
| Tailing.SyncActivity | xray_vps_manager/activity/sync.py:100-256 | Counters are committed line by line up to where the run breaks off; offset and windows all or nothing; another or a shorter file is read from 0. |
| Tailing.RunStaysExact | xray_vps_manager/activity/sync.py:159-247 | Over any run of appends, rotations, truncations, successful and failing syncs the windows are at every moment the fold over exactly the lines before the offset, each once, and each recorded line is counted at least once, if and only if no sync read new contents that had grown back to the stored offset. |
| Tailing.FirstPass | xray_vps_manager/activity/sync.py:160-178 | The first sync of new contents passes exactly the lines after those it misses, which are the ones before the stored offset of contents that have grown back, and none otherwise. |
| Tailing.MissedStaysMissed | xray_vps_manager/activity/sync.py:160-178 | What was missed is never passed later, as long as the contents last. |
| Tailing.TruncationLosesLine | xray_vps_manager/activity/sync.py:162 | A file that is emptied and grows back, of which the windows never see the first line. |
| Tailing.RunStaysAccounted | xray_vps_manager/activity/sync.py:185-247 | In every run windows and counters are right about the lines that were passed. |
| Tailing.RepeatedRun | xray_vps_manager/activity/sync.py:107-111 | Repeating a failed run counts the lines before the failure twice and puts every line into the windows once. |
| Tailing.RotateRawLogs | xray_vps_manager/activity/raw_logs.py:337-379 | Nothing is left unread when the drain succeeds; when it fails the rotation goes on and the unread lines leave with the old file. |
| Bypass.ActiveFor | xray_vps_manager/db/repositories/bypass.py:104-109 | An enabled route of the region, if there is one. |
| Bypass.SaveKeepsOneActive | xray_vps_manager/commands/set_bypass.py:435-438 | Disabling the displaced route is enough for the index: the save is not refused and no region has two enabled routes. |
| Bypass.Manager.ApplyEnable | xray_vps_manager/commands/set_bypass.py:386-432 | Displaces the region's active route only with --replace or when it is the confirmed one; refuses otherwise. |
| Bypass.Manager.Add | xray_vps_manager/commands/set_bypass.py:474-505 | The locked part of `add`, as a function of the state inside the lock. |
| Bypass.Manager.Enable | xray_vps_manager/commands/set_bypass.py:580-602 | The locked part of `enable`: refused when the record changed since it was read. |
| Bypass.Manager.Region | xray_vps_manager/commands/set_bypass.py:627-672 | The locked part of `region`, which reads the record again. |
| Bypass.Manager.Target | xray_vps_manager/commands/set_bypass.py:702-707 | The locked part of `target`: only the index keeps it from enabling a second route. |
| Bypass.Manager.Disable | xray_vps_manager/commands/set_bypass.py:717-728 | The locked part of `disable`. |
| Bypass.Manager.Remove | xray_vps_manager/commands/set_bypass.py:750-766 | The locked part of `remove`. |
| BypassRuns.RunStaysSafe | xray_vps_manager/commands/set_bypass.py:376-408 | However prompts and locked parts interleave, what the re-validation inside the lock displaces leaves one enabled route for each region. |
| BypassRuns.IndexNeverRefuses | xray_vps_manager/commands/set_bypass.py:386-438 | At no moment of a run would the unique index refuse what `add`, `enable`, `region`, `disable` or `remove` writes. |
| BypassRuns.TargetRefusedInRun | xray_vps_manager/commands/set_bypass.py:682-707 | At every moment of a run the index refuses `target` on an unchanged record exactly when the record is enabled without a region and the given region has an active route. |
| BypassRuns.OnlyConfirmedIsDisplaced | xray_vps_manager/commands/set_bypass.py:376-408 | An enabled route of another tag is switched off only with --replace or if it is the very route seen active and confirmed before the lock. |
| BypassRuns.RefusedIffContested | xray_vps_manager/commands/set_bypass.py:376-408 | At every moment of a run a command is refused for an active route exactly when it may not displace that route; with --replace or a confirmation that still holds the new route is enabled. |
| BypassRuns.UndisturbedIsNotRefused | xray_vps_manager/commands/set_bypass.py:376-408 | A command that finds everything as it was when the administrator was asked is not refused for an active route. |
| BypassRuns.AskedIff | xray_vps_manager/commands/set_bypass.py:376-408 | The administrator is asked about a route exactly when it is another active one of the region and --replace is not given. |
| BypassRuns.CommandStores | xray_vps_manager/commands/set_bypass.py:455-768 | A command that succeeds stores the route it was asked for, with what it did not name kept; another route changes only by being switched off. |
| BypassRuns.AddRules | xray_vps_manager/commands/set_bypass.py:474-505 | The configuration's rules match the enabled routes after `add` exactly when the tag was not enabled in another region. |
| BypassRuns.EnableRules | xray_vps_manager/commands/set_bypass.py:580-602 | They always match after `enable`. |
| BypassRuns.RegionRules | xray_vps_manager/commands/set_bypass.py:627-672 | They always match after `region`. |
| BypassRuns.TargetRules | xray_vps_manager/commands/set_bypass.py:682-707 | They match after `target` exactly when the stored route was not enabled without a region. |
| BypassRuns.DisableRules | xray_vps_manager/commands/set_bypass.py:712-728 | They match after `disable` exactly when no other route is active in the region. |
| BypassRuns.RemoveRules | xray_vps_manager/commands/set_bypass.py:741-766 | They match after `remove` exactly when no other route is active in the region. |
| BypassRuns.RunKeepsRules | xray_vps_manager/commands/set_bypass.py:455-768 | Rules and enabled routes match throughout a run exactly when none of its commits is of the harmful kinds above. |
| BypassRuns.AddLeavesRule | xray_vps_manager/commands/set_bypass.py:474-505 | A route that is re-added for another region and leaves its old rule. |
| BypassRuns.DisableTakesRule | xray_vps_manager/commands/set_bypass.py:712-766 | A disabled route whose disabling or removal takes the rule of an enabled one. |
| BypassRuns.TargetWithoutRule | xray_vps_manager/commands/set_bypass.py:682-707 | A regionless route that `target` enables in a region without a rule. |
| BypassRuns.RegionlessStays | xray_vps_manager/commands/set_bypass.py:712-766 | Over any run in which no command gives it a region, a route without one stays stored and enabled as it is, however often it is to be disabled or removed. |
| Burst.Scan | xray_vps_manager/activity/reports.py:77-92 | The two-pointer scan finds the densest window that starts at an event, and the first such event. |
| Burst.RollingBurst | xray_vps_manager/activity/reports.py:77-92 | No window of the length, starting at any instant, holds more events; the start is the earliest event whose window holds as many. |
| Burst.BurstFinding | xray_vps_manager/activity/reports.py:107-110 | The finding is reported exactly when some window, starting anywhere, reaches the limit. |
| Normalize.NormalizeEntryCredentials | xray_vps_manager/clients/credentials.py:111-133 | The loop over a copy of the dict, with its pops and re-keyings, computes which object is held under each key. |
| Normalize.KeysAreConnections | xray_vps_manager/clients/credentials.py:118-126 | At the end every key is the connection of the credential under it. |
| Normalize.KeptIff | xray_vps_manager/clients/credentials.py:118-126 | Exactly which credentials the loop keeps, in terms of the order of the dict. |
| Normalize.NothingLostIff | xray_vps_manager/clients/credentials.py:118-126 | No credential is lost exactly when no two belong under one key and none is moved to the key of a later one that moves. |
| Normalize.SwapLosesOne | xray_vps_manager/clients/credentials.py:118-126 | Two keys that name each other, of which one credential is lost. |
| Normalize.EmptyIff | xray_vps_manager/clients/credentials.py:118-126 | Nothing is left exactly when every credential belongs under the key of a later value; never when all values are credentials. |
| Normalize.NormalizedFields | xray_vps_manager/clients/credentials.py:132-167 | Unless nothing is left, every credential is as it was stored, with a missing state filled in, the repeated fields are those of one of the credentials and the record is enabled exactly when one of them is. |
| Normalize.LegacyBecomesCredential | xray_vps_manager/clients/credentials.py:90-116 | A record without credentials gets exactly the one its fields amount to, and is left alone when they name no connection or client. |
| Normalize.NormalizeTwice | xray_vps_manager/clients/credentials.py:90-133 | Normalizing twice is normalizing once exactly unless the dict is not empty, each of its credentials belongs under the key of a later value, and the repeated fields name a connection and a client. |
| Normalize.NormalizeDictsTwice | xray_vps_manager/clients/credentials.py:111-133 | It is idempotent when all values are credentials. |
| Normalize.SecondCallRefills | xray_vps_manager/clients/credentials.py:111-133 | A dict with a credential that the first call empties and the second fills from the repeated fields. |
| Calendar.NextDayIsNext | xray_vps_manager/clients/limits.py:130-140 | No date lies strictly between a day and the next. |
| Calendar.AddDaysCounts | xray_vps_manager/clients/access.py:51-81 | Adding days to a date adds exactly that many to its day number in the Gregorian calendar. |
| Calendar.OrdinalOrders | xray_vps_manager/clients/access.py:72-81 | Dates are ordered as their day numbers are. |
| Limits.ResetExact | xray_vps_manager/clients/limits.py:121-140 | From now on the period key differs from now's exactly from the reset time on, for days and months, December included. |
| Limits.KeyNeverReturns | xray_vps_manager/clients/limits.py:121-127 | Once the period key has changed it never comes back. |
| Limits.MonthTotal | xray_vps_manager/clients/limits.py:188-203 | Walking the dates of the month sums exactly the days from the first to today. |
| Limits.TrafficLimitUsage | xray_vps_manager/clients/limits.py:206-214 | The usage of the day or of the month so far. |
| Limits.UsageCountsBucket | xray_vps_manager/clients/limits.py:165-214 | A new bucket counts exactly when its date lies in the current period and not after today. |
| Limits.UsageStartsAtZero | xray_vps_manager/clients/limits.py:165-214 | Traffic of earlier periods does not count. |
| Limits.StatusBalances | xray_vps_manager/clients/limits.py:217-236 | Nothing remains exactly when the limit is exceeded; otherwise used and remaining bytes add up to it. |
| Limits.ExtendComposes | xray_vps_manager/clients/access.py:72-81 | Extending twice at one instant is extending once by the sum. |
| Limits.ExtendNeverShortens | xray_vps_manager/clients/access.py:72-81 | A midnight deadline moves later by at least the days added. |
| Limits.FreshAccessIsNotExpired | xray_vps_manager/clients/access.py:51-101 | After setting or extending by at least a day access is not over. |
| Email.EmailMetadata | xray_vps_manager/clients/models.py:55-63 | The loop over the parts of an email collects the last value of every key. |
| Email.RoundTrip | xray_vps_manager/clients/models.py:66-77 | Decoding an encoded email gives name and creation stamp back, for all parts free of the separator. |
| Email.DecodersAgree | xray_vps_manager/activity/parser.py:22-26 | The log parser reads the same name exactly when there is a creation stamp or no tag. |
| Email.DecodersDisagree | xray_vps_manager/activity/parser.py:22-26 | An email for which the two decoders disagree. |
| Proto.ReadVarint | xray_vps_manager/activity/parser.py:42-52 | Reads the base 128 varint at an index; fails exactly when the data ends inside it. |
| Proto.VarintRoundTrip | xray_vps_manager/activity/parser.py:42-52 | Every natural number survives encoding and decoding, whatever follows it. |
| Proto.CutVarintIsRefused | xray_vps_manager/activity/parser.py:42-52 | A varint cut off anywhere is refused. |
| Proto.ParseProtoFields | xray_vps_manager/activity/parser.py:55-80 | The index loop decodes the fields one after the other; every turn advances. |
| Proto.ParseConcat | xray_vps_manager/activity/parser.py:55-80 | An encoded list followed by any data decodes to the list followed by what the data decodes to. |
| Proto.RoundTrip | xray_vps_manager/activity/parser.py:55-80 | Decoding undoes encoding for wire types 0, 1, 2 and 5 and naturals of any size. |
| Proto.EncodeInjective | xray_vps_manager/activity/parser.py:55-80 | Different field lists have different encodings. |
| Proto.CutFieldIff | xray_vps_manager/activity/parser.py:55-80 | A field that is cut off is refused exactly when the cut is inside its key, a string's length or a varint payload; otherwise it comes out short. |
| Proto.CutListIff | xray_vps_manager/activity/parser.py:55-80 | Wherever an encoded list is cut off, the fields before the cut come out whole and the cut one as it does alone. |
| Proto.CutStringIsAccepted | xray_vps_manager/activity/parser.py:68-71 | A string of two bytes that arrives with one. |
| Arguments.CheckForm | xray_vps_manager/commands/arguments.py:28-60 | The iterator loop accepts exactly the argument lists of the form and returns their positionals and options. |
| Arguments.FormAcceptsIff | xray_vps_manager/commands/arguments.py:28-60 | Well-typed positional arguments followed by options in any order are accepted exactly when the counts, the exclusive groups and the required options fit, and then all of them arrive. |
| Arguments.CollectOptions | xray_vps_manager/commands/client.py:2017-2161 | The option loops of the hand-written parsers collect the last value for every slot. |
| Arguments.TrailingAccepts | xray_vps_manager/commands/arguments.py:28-60 | What a form with leading positionals accepts, such a parser accepts, with the same positionals and values. |
| Arguments.ParseConnectionTransportArgs | xray_vps_manager/commands/client.py:2093-2132 | On every argv that the form of `connection-transport` accepts, the parser returns what the form saw. |
| Arguments.TransportRefines | xray_vps_manager/commands/arguments.py:80 | `connection-transport`: what the form accepts, the parser accepts, with the same result. |
| Arguments.ParseConnectionXhttpExtraArgs | xray_vps_manager/commands/client.py:2135-2161 | On every argv that is accepted for `connection-xhttp-extra`, the parser returns what the form saw. |
| Arguments.ExtraRefines | xray_vps_manager/commands/arguments.py:81 | `connection-xhttp-extra`: likewise. |
| Arguments.ParseTrojanConnectionUpdateArgs | xray_vps_manager/commands/client.py:2017-2090 | On every argv that is accepted for `update-trojan-connection` the parser succeeds, and every value arrives exactly unless two different domains were given. |
| Arguments.UpdateRefines | xray_vps_manager/commands/arguments.py:79 | `update-trojan-connection`: accepted, and every value arrives exactly unless both spellings of the domain have different values. |
| Arguments.FormSeesTwoDomains | xray_vps_manager/commands/arguments.py:79 | An argv in which the form sees two domains. |
| Arguments.ParserKeepsSecondDomain | xray_vps_manager/commands/client.py:2034-2040 | The parser keeps the second of them. |
| Arguments.NameConnectionRefines | xray_vps_manager/commands/client.py:2164-2180 | `disable`, `enable`, `link` and `rotate-trojan-password`: the same name and connection. |
| Arguments.PullAgrees | xray_vps_manager/commands/client.py:1745-1765 | Taking an option out by index finds the value that the form saw and leaves a list that is accepted without it. |
| Arguments.AddRefines | xray_vps_manager/commands/client.py:1735-1772 | `add`: wherever the options stand, the same name, days and values. |

## Left out

* Menus, tables, prompts, Telegram notifications, subprocesses, tar archives, file modes, SSH and update commands: only
  their success or failure appears, as parameters.
* SQL, schema, migrations, locking and WAL; the uniqueness of client UUIDs and the foreign keys checked on upsert. The
  effects of deleting a connection row are modelled.
* Aliasing of dicts: records are values, so a record shared between a snapshot and its original is not modelled.
* Fields of inbounds and records that are carried without being looked at: the days granted, transport, XHTTP, Reality and certificate
  settings, levels, link metadata, cascade routes of clients, fingerprints, generated keys and short ids.
* Trimming of credential keys on lookup, credentials without an explicit id, protocol or creation stamp, and a stored
  `connection` inside a credential: only `Normalize` looks at what normalizing does with them. Elsewhere a credential's
  key is its connection.
* Records that lack the field `connection` altogether, which `ensure_connections` would give a default.
* `users` as another name for the client list of a Trojan inbound; ports that are not integers.
* Optional client and server details of `xray-client` commands: links, keys, payment types, summaries, `set-limit`.
* `update_connection_transport` and `update_connection_xhttp_extra`, which change neither names nor secrets. A hand-made
  Reality inbound under a TLS tag can become one of the mixed kind of `Removal.RealityStays` by them.
* Most commands begin by refreshing the connection records; in a run this is a step of its own, `Ensure`.
* Activity reports apart from the burst, exports, exceptions and block lists.
* `server.env` updates after `remove-connection`.
* The order of reported names: results that the source sorts or lists in order of discovery are sets here.
* Real time zones and daylight saving: local time is a civil date and a second of the day, and all helpers of one call
  read the same instant.
* Durability.StepIsStored: does not model that an upsert refuses a client record whose own id and whose client's id are
  both empty.
* Runs.RunKeepsGood: the states of a run are those that are saved; what a failed command leaves in memory is discarded,
  as the commands do.
* Crud.EnableClient: asks that the stored emails of the record name its client, and so does
  Enforcement.EnforceTrafficLimits; `Runs.AlwaysCallable` shows that this always holds in a consistent state.
* Lifecycle.MoveClient: asks that the inbound in which the client is active is the one found under its tag;
  `Runs.AlwaysCallable` likewise.
* Ticks.EnabledAtFirstChance: does not say that the earlier choice of credentials comes back, because re-enabling after a
  limit enables all of them.
* Commit.SaveConfigRestartXrayAndDb: assumes that an exception other than an interrupt leaves the database transaction
  before COMMIT; the cascade rules that are written into the configuration beforehand are part of the new configuration.
* Snapshots.SaveDb: the in-place normalization of the saved dict when there is no snapshot is not modelled.
* Restore.RestoreWithWritersStopped: optional files that an archive introduces are not followed, and a rollback does not
  remove them; a step of the restore that is not a copy is one flag.
* Tailing.RunStaysExact: contents that replace the old ones in place count as new from their first line, also where they
  repeat old lines.
* Tailing.SyncActivity: lines are appended whole, the set of stored clients does not change during one run, and detailed
  events, alerts and pruning are not modelled; what a window does with an event is a parameter.
* Bypass.Manager.Add: applying the configuration is taken to succeed; when it fails the old one is restored and nothing
  is saved.
* Normalize.NormalizeEntryCredentials: of the defaults only that of `enabled` is modelled, and a record's protocol is
  always known.
* Arguments.AddRefines: values are compared before their own checks; `add-connection` and `add-trojan-connection` are not
  modelled, nor are the forms of the other programs.
* Proto.ReadVarint: or-ing shifted groups is written as adding them; NextGroupFits shows that the bits do not overlap.
