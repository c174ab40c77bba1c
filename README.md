# Keycloak SCIM connector: the group reconciliation engine in Dafny

This project models the core of a Keycloak storage provider that keeps a SCIM
2.0 service in step with the groups of a realm. The model covers:

- the **adapter**, which translates one local group into a SCIM Group and back;
- the **mapping table**, whose rows link a local id to a remote id for one
  resource type, realm and connector component;
- the **synchronization result**, which collects what a sync did;
- the **SCIM client**, which creates, replaces and deletes remote groups,
  walks the local groups to refresh the remote side, imports the remote
  groups, and records each outcome.

The Keycloak session, JPA and the SCIM SDK are replaced by explicit state:

- `Mappings.MappingStore` holds the table as a set of rows;
- `Directory.LocalDirectory` holds the realm's groups and users;
- the server is a script of replies (`ScimClient.server`), read in the order
  requests are sent. `cursor` counts the requests sent and `sent` logs them.

Each reply is one of:

- a transport failure, which the retry policy retries up to ten attempts in all;
- a rejection raised by the client library, which is never retried;
- a response with a success flag, a status and a decoded resource.

Regular-expression matching and Java's `==` on two name references are
oracles (`Common.Oracles`). `tryToMap` compares references, and equal
contents do not imply equal references, so it is not modelled as string
equality.

Modules and the source they follow:

| module | file | source |
|---|---|---|
| `Common` | common.dfy | Java nulls, the first-write-wins setters, the exceptions the engine sees |
| `Sets` | sets.dfy | what a loop over a `HashSet` collects, in any order |
| `Mappings` | mappings.dfy | `ScimResource` rows, the named queries `findById` and `findByExternalId`, `getMapping` |
| `Directory` | directory.dfy | the realm's groups and users, as the adapter uses them |
| `GroupFilter` | groupfilter.dfy | `getFilteredGroups` and `addGroupRecursively` |
| `Remote` | remote.dfy | resources, requests, replies, the retry policy |
| `Adapters` | groupadapter.dfy | `Adapter` (the base members) and `GroupAdapter` as one class |
| `SyncResult` | result.dfy | `ScimSynchronizationResult` |
| `Runs` | runs.dfy | the walk of a loop, as a run of a step relation through a sequence of states |
| `Client` | client.dfy | `ScimClient` |

Every operation that changes state is a method of a class with `modifies`
clauses:

- the adapter's guarded setters and both `apply` overloads;
- the store's `persist`, `remove` and `merge`;
- the result's `add…` methods;
- the client's `create`, `replace`, `delete`, `refreshResources`,
  `importResources` and `sync`.

The client methods are specified by effect predicates (`CreateEffect`,
`ReplaceEffect`, `DeleteEffect`, `ImportEffect`). Each relates the table, the
directory's groups, the request log and the result before the call to the
ones after it. A loop over groups is specified as a run (`Runs.Chain`) of
such an effect through snapshots of that state (`Client.Snapshot`): each
group starts from the snapshot the one before it left. Lemmas beside them
prove what the source promises:

- a successful `create` makes the next `create` of that group do nothing;
- a `delete` leaves no row for its id;
- `create` and `replace` touch only their own group's rows;
- importing a remote group never records more than one entry;
- importing a remote group that cannot be applied records exactly one failed
  entry, and the loop continues with the next group.

Behaviour of the code that the contracts make explicit:

- `create` saves a row even when the create response is not a success. A
  response without a resource, or with an incomplete one, raises instead.
- `refreshResources` records "updated" for a group whose lookup found a row,
  even when `replace` did nothing. It records "added" even when `create`
  found a row and sent nothing: `getMapping` fails open on several rows,
  while `create` counts them.
- `importResources` links a heuristic match with no result entry.
- `importResources` deletes a dangling row before `tryToMap`. Its `setId`
  keeps the dangling id, so a match by reference saves the same row again
  (`ScimClient.DanglingRowRestoredByMatch`).
- `delete` removes the row whatever the remote status, but not when no reply
  came back.
- After the 404/400 create fallback of `replace`, the row keeps the old
  remote id (see "## Findings"). The operations follow the code as written.

## Model

| member | source | states |
|---|---|---|
| `Common.FirstWriteWins` | src/main/java/sh/libre/scim/core/Adapter.java:64-78 | After any series of guarded setter calls, a field holds the first non-null value it was ever given, its earlier value included. |
| `Common.SetFieldIsSticky` | src/main/java/sh/libre/scim/core/Adapter.java:64-78 | Once a field is non-null, no later setter call changes it. |
| `Mappings.Select` | src/main/java/sh/libre/scim/core/Adapter.java:94-105 | A named query returns exactly the rows of the adapter's type, realm and component whose key column equals the parameter. A null parameter matches no row. |
| `Mappings.MappingStore.ResultList` | src/main/java/sh/libre/scim/core/Adapter.java:94-105 | `getResultList()` of a query is that set of rows. |
| `Mappings.MappingStore.SingleResultOf` | src/main/java/sh/libre/scim/core/Adapter.java:110-113 | `getSingleResult()` gives no result for no row, the row for exactly one, and a non-unique failure for several. |
| `Mappings.LookupMapping` | src/main/java/sh/libre/scim/core/Adapter.java:107-122 | The lookup is by id when the id is set and by externalId only when it is not. It gives null when neither is set, on a miss, or on several rows. A row it returns is in scope and has the key it looked for. |
| `Mappings.NoExternalIdFallback` | src/main/java/sh/libre/scim/core/Adapter.java:107-122 | When the id is set and misses, a row matching the externalId is not returned. |
| `Mappings.LookupIsScoped` | src/main/java/sh/libre/scim/core/Adapter.java:94-105 | A row of another type, realm or component is never returned. |
| `Mappings.SavedRowIsFound` | src/main/java/sh/libre/scim/core/Adapter.java:124-126 | A row saved where its id had no row is what the next lookup by that id returns. |
| `Mappings.MappingStore.Persist` | src/main/java/sh/libre/scim/core/Adapter.java:124-126 | `persist` adds exactly the one row. |
| `Mappings.MappingStore.Remove` | src/main/java/sh/libre/scim/core/Adapter.java:128-131 | `remove` takes out exactly the one row. |
| `Mappings.MappingStore.Overwrite` | src/main/java/sh/libre/scim/core/ScimClient.java:213-214 | `merge` of an edited row replaces the old row by the new one and changes nothing else. |
| `Adapters.Endpoint` | src/main/java/sh/libre/scim/core/Adapter.java:80-82 | The endpoint is the type followed by "s", which is "Groups" for a group. |
| `Adapters.GroupAdapter.SetId` | src/main/java/sh/libre/scim/core/Adapter.java:64-68 | Only a null id is overwritten, and no other field changes. |
| `Adapters.GroupAdapter.SetExternalId` | src/main/java/sh/libre/scim/core/Adapter.java:74-78 | Only a null externalId is overwritten, and no other field changes. |
| `Adapters.GroupAdapter.SetDisplayName` | src/main/java/sh/libre/scim/core/GroupAdapter.java:39-43 | Only a null displayName is overwritten, and no other field changes. |
| `Adapters.GroupAdapter.ApplyMapping` | src/main/java/sh/libre/scim/core/Adapter.java:133-136 | Id and externalId come from the row, each first-write-wins, so an adapter with an id keeps it. |
| `Adapters.GroupAdapter.ApplyLocal` | src/main/java/sh/libre/scim/core/GroupAdapter.java:51-59 | Id and displayName are set first-write-wins. The members are replaced by the group's members. `skip` is set exactly when "scim-skip" is "true". |
| `Adapters.GroupAdapter.ApplyRemote` | src/main/java/sh/libre/scim/core/GroupAdapter.java:61-80 | Success holds exactly when id, displayName and every member value are present. ExternalId, then displayName, are set first-write-wins. A non-empty member list replaces the members by the local ids of the values before the first absent one that have a User row. An absent value raises after the assignments made before it. |
| `Adapters.GroupAdapter.IncomingMembers` | src/main/java/sh/libre/scim/core/GroupAdapter.java:65-79 | The loop collects the local ids of the member values that resolve through a single User row and drops the others. It reports whether no value was absent. |
| `Adapters.IncomingHas` | src/main/java/sh/libre/scim/core/GroupAdapter.java:68-78 | A local id is collected exactly when some member value resolves to it. |
| `Adapters.GroupAdapter.OutgoingValues` | src/main/java/sh/libre/scim/core/GroupAdapter.java:88-107 | In some order, the loop collects the remote id of each member that exists locally and has a single User row, and only those. |
| `Adapters.GroupAdapter.ToScim` | src/main/java/sh/libre/scim/core/GroupAdapter.java:83-120 | The payload id is the externalId, the payload externalId is the local id, and displayName is copied. A member list is present exactly when there are members, and holds the resolved values with ref "Users/" + value. The meta location is "Groups/" + externalId exactly when asked for. |
| `Adapters.PayloadMembers` | src/main/java/sh/libre/scim/core/GroupAdapter.java:88-109 | The payload's member list is no longer than the member set, and each entry is the resolved remote id of some member. |
| `Adapters.GroupAdapter.ToPatch` | src/main/java/sh/libre/scim/core/GroupAdapter.java:171-205 | There is exactly one operation, on path "members": REPLACE with the resolved values when there are members, REMOVE with no value otherwise. |
| `Adapters.GroupAdapter.EntityExists` | src/main/java/sh/libre/scim/core/GroupAdapter.java:122-132 | False without an id; otherwise true exactly when the directory has a group of that id. |
| `Adapters.FirstSameRef` | src/main/java/sh/libre/scim/core/GroupAdapter.java:136 | It finds a group exactly when some group's name is the same reference as the displayName, and gives the first such group in directory order. |
| `Adapters.GroupAdapter.TryToMap` | src/main/java/sh/libre/scim/core/GroupAdapter.java:134-142 | True exactly when a group matches by reference. Its id is offered to `setId`, so an id already set is kept. No other field changes. |
| `Adapters.GroupAdapter.CreateEntity` | src/main/java/sh/libre/scim/core/GroupAdapter.java:144-159 | It succeeds exactly when the directory accepts the name. On success the id is overwritten with a fresh group's id, bypassing `setId`. The new group is last, with every member the directory knows. Unknown members are skipped. The directory keeps its invariant. |
| `Adapters.GroupAdapter.ToMapping` | src/main/java/sh/libre/scim/core/Adapter.java:84-92 | The row carries the adapter's type, realm, component, id and externalId. |
| `Adapters.GroupAdapter.GetMapping` | src/main/java/sh/libre/scim/core/Adapter.java:107-122 | The method gives exactly `LookupMapping` of the adapter's id and externalId. |
| `Adapters.GroupAdapter.SaveMapping` | src/main/java/sh/libre/scim/core/Adapter.java:124-126 | `saveMapping` inserts exactly `toMapping()`. |
| `Adapters.GroupAdapter.DeleteMapping` | src/main/java/sh/libre/scim/core/Adapter.java:128-131 | `deleteMapping` removes exactly `toMapping()`. |
| `GroupFilter.TrimSpec` | src/main/java/sh/libre/scim/core/Adapter.java:169 | `String.trim` gives a slice of the input with only characters up to U+0020 cut at either end, and none left at its ends. |
| `GroupFilter.SplitCommas` | src/main/java/sh/libre/scim/core/Adapter.java:166 | `split(",")` gives the pieces between commas with the trailing empty ones removed, or the whole text when it has no comma. |
| `GroupFilter.PiecesJoin` | src/main/java/sh/libre/scim/core/Adapter.java:166 | Splitting at every comma loses nothing: joining the pieces with commas gives the text back. |
| `GroupFilter.PatternsOf` | src/main/java/sh/libre/scim/core/Adapter.java:166-170 | The pattern loop gives one trimmed pattern per split piece, in order. |
| `GroupFilter.ClosureIsUnique` | src/main/java/sh/libre/scim/core/Adapter.java:171-188 | The smallest subgroup-closed set holding the matching groups is unique. |
| `GroupFilter.AddGroupRecursively` | src/main/java/sh/libre/scim/core/Adapter.java:184-188 | It adds the group. When the group was new, every group added has all its subgroups in the result. Nothing is added that a closed set holding the group lacks. |
| `GroupFilter.ClosureOfMatches` | src/main/java/sh/libre/scim/core/Adapter.java:171-176 | The collected ids are exactly the smallest subgroup-closed set holding every group whose name matches a pattern. |
| `GroupFilter.StreamOf` | src/main/java/sh/libre/scim/core/Adapter.java:177 | Streaming the set gives each of its groups exactly once, in some order. |
| `GroupFilter.FilteredGroups` | src/main/java/sh/libre/scim/core/Adapter.java:156-178 | With no component, or a null or blank first filter value, every group is given, in realm order. Otherwise each group of the closure is given exactly once. |
| `Remote.Retried` | src/main/java/sh/libre/scim/core/ScimClient.java:68-72 | The policy sends again only after a transport failure, for at most ten attempts. The reply kept is the first that is not a transport failure, or the last one. |
| `Client.ScimClient.SendWithRetry` | src/main/java/sh/libre/scim/core/ScimClient.java:139-148 | The loop sends the same request exactly as many times as `Retried` says, and ends with its reply. |
| `Client.ScimClient.RetriedIs` | src/main/java/sh/libre/scim/core/ScimClient.java:68-72 | The policy stops at the first reply that is not a transport failure, or when the attempts are used up. |
| `SyncResult.Record` | src/main/java/sh/libre/scim/storage/ScimSynchronizationResult.java:20-68 | An `add…` call appends its argument to its own list and adds one to its counter (a mapped entry to "updated"). It keeps the counters in agreement with the lists. |
| `SyncResult.RecordLeavesOtherLists` | src/main/java/sh/libre/scim/storage/ScimSynchronizationResult.java:20-68 | Every other list is unchanged. |
| `SyncResult.RecordLeavesOtherCounters` | src/main/java/sh/libre/scim/storage/ScimSynchronizationResult.java:20-68 | Every other counter is unchanged. |
| `SyncResult.ReplayAgrees` | src/main/java/sh/libre/scim/storage/ScimSynchronizationResult.java:20-68 | Any series of `add…` calls keeps every counter equal to the number of entries of its lists: added counts the added users and groups, updated counts the updated and mapped ones, removed and failed likewise. |
| `SyncResult.ReplayAppends` | src/main/java/sh/libre/scim/storage/ScimSynchronizationResult.java:20-68 | The lists are append-only: each ends as its old contents followed by the descriptions of its calls, in call order. |
| `SyncResult.NatToString` | src/main/java/sh/libre/scim/storage/ScimSynchronizationResult.java:85 | An integer is rendered as a non-empty run of decimal digits. |
| `SyncResult.StatusNoChanges` | src/main/java/sh/libre/scim/storage/ScimSynchronizationResult.java:82-105 | The status is "No changes" exactly when all four counters and the mapped count are zero. |
| `SyncResult.MappedCountsTwice` | src/main/java/sh/libre/scim/storage/ScimSynchronizationResult.java:60-68 | Whatever the tally, one more mapped user or group raises both the updated number and the mapped number of the status by one. On an empty tally the status reads "1 updated, 1 mapped". |
| `SyncResult.OneMappedText` | src/main/java/sh/libre/scim/storage/ScimSynchronizationResult.java:83-104 | The status of one updated and one mapped entry is "1 updated, 1 mapped". |
| `SyncResult.AppendCount` | src/main/java/sh/libre/scim/storage/ScimSynchronizationResult.java:86-102 | A positive count appends "<n><suffix>", after ", " when the status is non-empty; a zero count appends nothing. |
| `SyncResult.ScimSynchronizationResult.GetStatus` | src/main/java/sh/libre/scim/storage/ScimSynchronizationResult.java:82-105 | The status is the present segments in the fixed order added, updated, removed, failed, mapped, joined with ", ", or "No changes". |
| `SyncResult.ScimSynchronizationResult.constructor` | src/main/java/sh/libre/scim/storage/ScimSynchronizationResult.java:9-18 | A new result has empty lists and zero counters. |
| `SyncResult.ScimSynchronizationResult.AddAddedUser` | src/main/java/sh/libre/scim/storage/ScimSynchronizationResult.java:20-23 | The new state is `Record` of the old with an added user. |
| `SyncResult.ScimSynchronizationResult.AddUpdatedUser` | src/main/java/sh/libre/scim/storage/ScimSynchronizationResult.java:25-28 | The new state is `Record` of the old with an updated user. |
| `SyncResult.ScimSynchronizationResult.AddRemovedUser` | src/main/java/sh/libre/scim/storage/ScimSynchronizationResult.java:30-33 | The new state is `Record` of the old with a removed user. |
| `SyncResult.ScimSynchronizationResult.AddFailedUser` | src/main/java/sh/libre/scim/storage/ScimSynchronizationResult.java:35-38 | The new state is `Record` of the old with a failed user. |
| `SyncResult.ScimSynchronizationResult.AddAddedGroup` | src/main/java/sh/libre/scim/storage/ScimSynchronizationResult.java:40-43 | The new state is `Record` of the old with an added group. |
| `SyncResult.ScimSynchronizationResult.AddUpdatedGroup` | src/main/java/sh/libre/scim/storage/ScimSynchronizationResult.java:45-48 | The new state is `Record` of the old with an updated group. |
| `SyncResult.ScimSynchronizationResult.AddRemovedGroup` | src/main/java/sh/libre/scim/storage/ScimSynchronizationResult.java:50-53 | The new state is `Record` of the old with a removed group. |
| `SyncResult.ScimSynchronizationResult.AddFailedGroup` | src/main/java/sh/libre/scim/storage/ScimSynchronizationResult.java:55-58 | The new state is `Record` of the old with a failed group. |
| `SyncResult.ScimSynchronizationResult.AddMappedUser` | src/main/java/sh/libre/scim/storage/ScimSynchronizationResult.java:60-63 | The new state is `Record` of the old with a mapped user, which counts as updated. |
| `SyncResult.ScimSynchronizationResult.AddMappedGroup` | src/main/java/sh/libre/scim/storage/ScimSynchronizationResult.java:65-68 | The new state is `Record` of the old with a mapped group, which counts as updated. |
| `Client.UrlNamesResource` | src/main/java/sh/libre/scim/core/ScimClient.java:100-104 | "<base>/<endpoint>/<path>" determines the path: two resources of one endpoint never share a URL. |
| `Client.UsesPatch` | src/main/java/sh/libre/scim/core/ScimClient.java:175-176 | A replacement is a PATCH exactly when the group-patchOp option (for a group) or the user-patchOp option (for a user) is on. |
| `Client.CreateOutcome` | src/main/java/sh/libre/scim/core/ScimClient.java:139-156 | `create` succeeds exactly when the reply carries a complete group. Otherwise it ends by raising: the exception of a missing reply, a null resource, or an absent value. The status plays no part. |
| `Client.ReplaceTarget` | src/main/java/sh/libre/scim/core/ScimClient.java:163-168 | `replace` works on the group's single row of its own scope, and on none when the group is skipped. |
| `Client.Relink` | src/main/java/sh/libre/scim/core/ScimClient.java:208-214 | Corrected relink after the create fallback: the row of the local id names the new remote id, and no other row changes. |
| `Client.RelinkIsFound` | src/main/java/sh/libre/scim/core/ScimClient.java:208-214 | After the corrected relink, a lookup by the local id gives the row with the new remote id. |
| `Client.RelinkAsWrittenChangesNothing` | src/main/java/sh/libre/scim/core/ScimClient.java:210-214 | As written, the relink writes back the externalId the row already had, so the table does not change. |
| `Client.StaleExternalIdExample` | src/main/java/sh/libre/scim/core/ScimClient.java:204-218 | A group recreated under the remote id "new" keeps a row naming "old" as written. The corrected relink names "new". |
| `Client.RecreatedRowStaysStale` | src/main/java/sh/libre/scim/core/ScimClient.java:208-214 | After any recreation that succeeds, the table as written is unchanged and a lookup by the local id still gives the old row. The intended update gives the row with the created id. |
| `Client.ScimClient.Send` | src/main/java/sh/libre/scim/core/ScimClient.java:304 | One request without retries consumes exactly one reply and is logged once. |
| `Client.ScimClient.TrackAdded` | src/main/java/sh/libre/scim/core/ScimClient.java:401-413 | A user adapter records an added user and a group adapter an added group. |
| `Client.ScimClient.TrackUpdated` | src/main/java/sh/libre/scim/core/ScimClient.java:415-427 | A user adapter records an updated user and a group adapter an updated group. |
| `Client.ScimClient.TrackRemoved` | src/main/java/sh/libre/scim/core/ScimClient.java:429-441 | A user adapter records a removed user and a group adapter a removed group. |
| `Client.ScimClient.TrackFailed` | src/main/java/sh/libre/scim/core/ScimClient.java:443-455 | A user adapter records a failed user and a group adapter a failed group. |
| `Client.ScimClient.Create` | src/main/java/sh/libre/scim/core/ScimClient.java:125-157 | No request and no change for a skipped group or one whose id has rows. Otherwise the payload of the group is posted to "/Groups" with retries. It then raises, or saves exactly one row (local id, created id), whatever the status. |
| `Client.ScimClient.CreateIsIdempotent` | src/main/java/sh/libre/scim/core/ScimClient.java:132-135 | After a successful `create`, the next `create` of the same group finds the row and sends nothing. |
| `Client.ScimClient.CreateSavesFoundRow` | src/main/java/sh/libre/scim/core/ScimClient.java:155-156 | Once `create` has saved its row, getMapping finds it; a failed `create` leaves the table as it was. |
| `Client.ScimClient.CreateTouchesOnlyItsId` | src/main/java/sh/libre/scim/core/ScimClient.java:125-157 | `create` only appends to the request log and changes no row except those of its group's id and scope. |
| `Client.ScimClient.Delete` | src/main/java/sh/libre/scim/core/ScimClient.java:236-268 | No row: nothing happens. Several rows: it raises. One row: a retried DELETE to "<base>/Groups/<externalId>", then the row is removed when a response came back, whatever its status, and it raises otherwise. |
| `Client.ScimClient.DeleteClearsId` | src/main/java/sh/libre/scim/core/ScimClient.java:263 | After a `delete` that did not raise, no row of that id is left in scope. |
| `Client.ScimClient.Replace` | src/main/java/sh/libre/scim/core/ScimClient.java:159-234 | `replace` makes no request and no change without a single row or for a skipped group. With a row it makes the first request with retries and at most one fallback, and raises nothing. |
| `Client.ScimClient.FirstRequest` | src/main/java/sh/libre/scim/core/ScimClient.java:172-189 | The first request goes to "<base>/Groups/<externalId>". It is a PATCH of the members when patchOp is on, otherwise a full update with the group's payload. |
| `Client.ScimClient.ReplaceMapped` | src/main/java/sh/libre/scim/core/ScimClient.java:168-222 | The first request is repeated as `Retried` says, followed by what `FallbackEffect` says, on the table as the code leaves it. |
| `Client.ScimClient.ReplaceFallback` | src/main/java/sh/libre/scim/core/ScimClient.java:192-222 | A failed response with 405 and group-patchOp off sends one PATCH. One with 404 or 400 sends one create with the group's payload. When that create succeeds with a complete group, the row is merged with the adapter's externalId, which is still the row's own, so the table ends as it was. Any other outcome changes nothing. |
| `Client.ScimClient.ReplaceTouchesOnlyItsId` | src/main/java/sh/libre/scim/core/ScimClient.java:159-234 | `replace` only appends to the request log and changes no row except those of its group's id and scope. |
| `Client.ScimClient.ReplaceKeepsRows` | src/main/java/sh/libre/scim/core/ScimClient.java:159-234 | Whatever the replies, `replace` leaves the table as it was, because the fallback's merge writes the row back unchanged. It only appends requests. |
| `Client.ScimClient.RefreshEffectFrame` | src/main/java/sh/libre/scim/core/ScimClient.java:276-293 | Refreshing one group keeps the local groups, only appends requests, and changes no row except those of its own id and scope. |
| `Client.ScimClient.CreateAddsOneRow` | src/main/java/sh/libre/scim/core/ScimClient.java:125-157 | A create that did not raise, of a group that is not skipped and has no row, leaves exactly one row for its id. |
| `Client.ScimClient.RefreshOne` | src/main/java/sh/libre/scim/core/ScimClient.java:276-293 | The effect on the snapshot is `RefreshEffect`. No row found: `create`, then "added" with "Group(name=…, id=…)" unless the create raised. A row found: `replace`, then "updated". The entry is recorded even when create or replace did nothing. Only rows of the group's id change. |
| `Client.ScimClient.RefreshResources` | src/main/java/sh/libre/scim/core/ScimClient.java:270-296 | The walk is over the filtered stream, from the state before the call. The groups before the first create that raised are refreshed one after the other, each by `RefreshEffect` from the snapshot the previous one left, and the group that raised comes last. Each entry is added or updated as the table before the walk decides. A group that had a row keeps its rows. A group with no row that is not skipped ends with exactly one. The result grows by exactly the entries. Rows of groups outside the stream do not change. |
| `Client.ScimClient.RefreshStream` | src/main/java/sh/libre/scim/core/ScimClient.java:275-294 | The loop over the stream is a run of `RefreshEffect` from the state before it to the state after it, ending at the first create that raised. The result grows by exactly the entries in stream order. |
| `Client.ScimClient.RefreshStep` | src/main/java/sh/libre/scim/core/ScimClient.java:276-293 | One pass of the loop: the run through the groups before it grows by this group when its create did not raise, and the new entry follows the snapshot it started from. Otherwise the run stays and this group's effect ends in the current state. |
| `Client.ScimClient.RefreshExtend` | src/main/java/sh/libre/scim/core/ScimClient.java:275-294 | A run followed by one refresh that did not raise is the longer run; its entries grow by that group's entry, and the result is the entries replayed. |
| `Client.ScimClient.RefreshChainAt` | src/main/java/sh/libre/scim/core/ScimClient.java:275-294 | Every group of a run is refreshed by `RefreshEffect` from the snapshot before it to the snapshot after it. |
| `Client.ScimClient.RefreshChainOtherIds` | src/main/java/sh/libre/scim/core/ScimClient.java:275-294 | Refreshing groups of other ids leaves the rows of an id as they were. |
| `Client.ScimClient.RefreshRunAt` | src/main/java/sh/libre/scim/core/ScimClient.java:275-294 | When the stream's ids are unique, each entry is decided by the table before the walk. Rows of a group that had a row end as they were, and a group created from none ends with exactly one. |
| `Client.StreamIdsUnique` | src/main/java/sh/libre/scim/core/Adapter.java:156-177 | The resource stream holds each group at most once, so its ids are unique when the realm's are. |
| `Client.ScimClient.ImportOne` | src/main/java/sh/libre/scim/core/ScimClient.java:308-366 | A group that cannot be applied records one "processing failed" entry. A valid row skips the group. A dangling row is deleted first. Then comes a match by reference, or the import action. At most one entry is recorded. |
| `Client.ScimClient.ImportUnlinked` | src/main/java/sh/libre/scim/core/ScimClient.java:328-360 | A match saves a row with no entry. With no action set it records a "processing failed" entry carrying the stand-in NullPointerException message. CREATE_LOCAL creates the group, saves its row and records "added", or records "create failed". DELETE_REMOTE sends one DELETE and records "removed", or "delete failed". Any other action does nothing. |
| `Client.ScimClient.DanglingRowRestoredByMatch` | src/main/java/sh/libre/scim/core/ScimClient.java:316-331 | When a complete remote group has a row and matches a local group by reference, the table, the local groups and the result end unchanged. This holds even when the row was dangling: it is deleted and then saved again. |
| `Client.ScimClient.ImportApplied` | src/main/java/sh/libre/scim/core/ScimClient.java:313-360 | For an applied group: a row whose local group exists skips the group with nothing changed. A dangling row is deleted before the rest of the import. |
| `Client.ScimClient.ImportAction` | src/main/java/sh/libre/scim/core/ScimClient.java:333-365 | With no action set, the switch fails and one "processing failed" entry is recorded, naming the id of a dangling row. CREATE_LOCAL and DELETE_REMOTE do what their own rows say. Any other value changes nothing. |
| `Client.ScimClient.CreateLocal` | src/main/java/sh/libre/scim/core/ScimClient.java:334-344 | An accepted name gives a new group with a fresh id, the members the directory knows and a row to the remote id, plus one "added" entry. A refused name changes nothing and records "create failed". |
| `Client.ScimClient.DeleteRemote` | src/main/java/sh/libre/scim/core/ScimClient.java:345-358 | Exactly one DELETE of the remote group is sent. A reply records "removed"; no reply records "delete failed" with the error's message. |
| `Client.ScimClient.ImportResources` | src/main/java/sh/libre/scim/core/ScimClient.java:298-371 | It sends one list request without retries. A missing reply or a missing list raises with nothing else changed. Otherwise the listed groups are imported in order, each by `ImportEffect` from the snapshot the one before it left, starting after the list request and ending in the final state. The result grows by the concatenation of their entries. |
| `Client.ScimClient.ImportListed` | src/main/java/sh/libre/scim/core/ScimClient.java:307-367 | The loop over the listed groups is a run of `ImportEffect` through snapshots, from the state before it to the state after it. The result grows by the concatenation of their entries, at most one each. |
| `Client.ScimClient.ImportStep` | src/main/java/sh/libre/scim/core/ScimClient.java:308-366 | One pass of the loop: the run through the groups before it grows by this group and the entries it recorded, and the result grows by them. |
| `Client.ScimClient.ImportExtend` | src/main/java/sh/libre/scim/core/ScimClient.java:307-367 | A run of imports followed by the import of the next listed group is the longer run. |
| `Client.ScimClient.ImportChainAt` | src/main/java/sh/libre/scim/core/ScimClient.java:307-367 | Each listed group is imported by `ImportEffect` from the snapshot the one before it left. A group that cannot be applied changes only the result, by its one failed entry. |
| `Client.ScimClient.ImportLinksGroup` | src/main/java/sh/libre/scim/core/ScimClient.java:316-344 | Under CREATE_LOCAL, a complete remote group with an accepted name and at most one row for its remote id ends linked: its row exists and names a local group that exists. The exception is a dangling row that a match restores. |
| `Client.ScimClient.UnlinkedLinksGroup` | src/main/java/sh/libre/scim/core/ScimClient.java:328-344 | Under CREATE_LOCAL, a remote group with no row for its remote id ends with one row naming a local group that exists, whether it matched by reference or was created. |
| `Client.ScimClient.Sync` | src/main/java/sh/libre/scim/core/ScimClient.java:373-383 | With both options off nothing changes. With sync-import on, the list request is the first request sent. A list that fails ends the call with its error, and only the request is consumed and logged. A list that succeeds is imported as `ImportResources` says, and with sync-refresh off that ends the call. With sync-refresh on, the refresh starts from the state the import left (or the initial one), walks the stream of that state's groups as `RefreshResources` says, and the result grows by the import's entries and then the refresh's. |

## Left out

- UserAdapter is not part of this model, so only group adapters are
  modelled. The user kind appears only in the `track…` dispatch and the
  patchOp choice.
- The constructor of the client, authentication headers, client
  configuration, timeouts, the hostname verifier, `close` and the
  request-builder plumbing are HTTP set-up with no decision in them.
- The retry policy's exponential backoff is left out. Only the attempt
  limit and which failures are retried are modelled.
- Logging, `printStackTrace` and the warnings about failed responses are
  left out.
- Transactions, concurrency and the JPA persistence context are left out.
  The table is a set of rows, changed in place by the store's methods.
- The messages the JVM and JPA give their exceptions (NullPointerException,
  NonUniqueResultException, NoSuchElementException) are stand-in strings in
  `Common.Message`. The texts of a failed transport or a rejected request
  are part of the reply.
- Regular-expression syntax, `Pattern.compile` errors and `URISyntaxException`
  are left out. Matching is an oracle, and the URIs built from ids are
  assumed to parse.
- Pagination of the list request is left out, as is the meaning of its
  literal path "url".
- `getResourceInfo` for users and for other adapter kinds is left out, with
  UserAdapter.
- The plain `SynchronizationResult` branch of the `track…` methods is left
  out. The engine's callers pass a `ScimSynchronizationResult`.
- The ten list getters of the result return its fields; the model's fields
  are read directly.
- `skipRefresh` is always false for groups, so the "skipping refresh" branch
  of `refreshResources` cannot be reached and is not modelled.
- The iteration order of Java hash sets (member sets, the filtered group set)
  is a nondeterministic choice. Contracts state the contents as a multiset,
  or as "each once".
- The Java `int` range of the counters is left out: counts are unbounded.
- In the create fallback of `replace`, the `saveMapping` branch taken when
  `getMapping` finds no row cannot be reached. The row was found a moment
  earlier by the same id, and nothing in between changes the table. The
  model asserts that `getMapping` gives that row.
- `Adapters.GroupAdapter.CreateEntity` requires a displayName. Its only
  caller reaches it after every field of the remote group was read, and
  what `createGroup` does with a null name is not part of this model.
- `Adapters.GroupAdapter.SaveMapping` and
  `Adapters.GroupAdapter.DeleteMapping` require both ids. Every call site
  has both set, and a row with a null key column is refused by the table.
- `importResources` never calls `addMappedGroup`
  (ScimSynchronizationResult.java:65-68). A match by reference saves its row
  and records nothing (ScimClient.java:328-331), and the model follows the
  code.

## Findings

| source | as written | input that shows it | evidently intended | confidence | as-written member | corrected member |
|---|---|---|---|---|---|---|
| src/main/java/sh/libre/scim/core/ScimClient.java:208-214 | After the 404/400 create fallback, `apply(createResponse.getResource())` cannot change externalId: the row already set it, and the setter is first-write-wins. `existingMapping.setExternalId(adapter.getExternalId())` therefore writes the old remote id back, and the row keeps naming the resource that is gone. | A row (g1, "old"); the update is answered 404; the create is answered with success and id "new" (`Client.StaleExternalIdExample`). `Client.RecreatedRowStaysStale` shows the same for every successful recreation. | The row names "new", so later replacements and the delete reach the recreated resource (`Client.FallbackRowsIntended`). | not executed | `Client.ScimClient.ReplaceFallback` | `Client.Relink` |

The operations of the model follow the code as written: `ReplaceFallback`
updates the table by `Client.FallbackRows`, which goes through
`Client.RelinkAsWritten` and leaves it unchanged. The corrected update,
`Client.FallbackRowsIntended`, goes through `Client.Relink`, and
`Client.RelinkIsFound` proves that a lookup then finds the new remote id.
