# RegisteredServicesCache, modelled in Dafny

Android's NFC card-emulation stack keeps a per-user cache of the host- and
off-host APDU services installed on the device: `RegisteredServicesCache`. For
each user id it holds a registry of three maps keyed by component name:

- `services`: the discovered service records, rebuilt at every package rescan;
- `dynamicSettings`: the overlay apps register at run time (a uid, AID groups by
  category, an off-host secure element, an observe-mode string), persisted in
  `dynamic_aids.xml`;
- `others`: the user's choice (a uid and a `checked` flag) for every service of
  the "other" category, persisted in `other_status.xml`.

This project models that cache and proves what it does to those maps:

- the rescan (`invalidateCache` with the discovered list as an input, and
  `invalidateOther`);
- the registration calls with their uid checks, writes and rollbacks;
- the readers and writers of the two documents;
- the helpers `findOrCreateUserLocked`, `containsServiceLocked` and
  `convertValueToBoolean`.

Layout, one module per file:

- `records.dfy` (`Records`): the entities. A service record, an overlay entry,
  a status and a registry are datatypes; the user table is a `map`. The calls
  into the platform are one `Platform` value of uninterpreted functions:
  `userOf` for `UserHandle.getUserHandleForUid`, `isValidAid`, and `flatten` /
  `unflatten` for `ComponentName`.
- `java_text.dfy` (`JavaText`): `Integer.parseInt`, `Integer.toString` and
  `Boolean.toString` as far as the documents use them, with 32-bit range checks.
- `reconcile.dfy` (`Reconcile`): the outcome of a rescan as a function `Reconciled`
  of the registry before it and the discovered list, and its properties.
- `invalidation.dfy` (`Invalidation`): the loops of `invalidateCache` and
  `invalidateOther` as methods proved against those functions.
- `documents.dfy` (`Documents`): a document is a list of parser events. The
  readers are folds with the state variables of the Java readers. A written
  document is characterised by `DescribesDynamic` / `DescribesOthers`: it is the
  document of some enumeration of the entries, since HashMap order is not fixed.
  Round trips and read invariants are proved here.
- `persistence.dfy` (`Persistence`): the reader and writer loops as methods
  proved against `Documents`.
- `registrations.dfy` (`Registrations`): what each registration call makes of
  the registry, and what survives the next rescan.
- `findings.dfy` (`Rollback`): the rollback of `removeAidGroupForService` as
  written and as intended.
- `cache.dfy` (`ServicesCache`): the class `RegisteredServicesCache` with fields
  `users`, `dynamicSettingsFile` and `othersFile` (None while the file does not
  exist). Every public operation is a method with `modifies this`, stated against
  the functions above. Each keeps the class invariant `Valid()`: every record is
  filed under its component and every group under its category, and every uid
  the table holds belongs to the user it is filed under (`UsersFiled`). The
  last part is what lets the round trips of the two documents apply to every
  table the cache reaches (`CacheDynamicRoundTrip`, `CacheOthersRoundTrip`).

In-place updates of Java objects become replacements of map entries. Where the
source relies on aliasing, the model writes it out:

- the records listed by `getServicesForCategory` are the map's own objects, so
  `invalidateOther` updates the map through them;
- `setOffHostSecureElement` updates a fresh `DynamicSettings` that is never put
  in the map;
- the callback list of `invalidateCache` holds the discovered objects as the
  cache left them.

A file write is an oracle: a `writeOk` parameter. On success the file holds the
new document; on failure it keeps the old one. The callback
`onServicesUpdated` is modelled as a returned `ServicesUpdated` value.

## Model

All source paths are in `src/com/android/nfc/cardemulation/RegisteredServicesCache.java`.

| member | source | states |
|---|---|---|
| Records.ConvertValueToBoolean | src/com/android/nfc/cardemulation/RegisteredServicesCache.java:489-502 | a null or empty value gives the default; "1", "true" and "TRUE" give true; any other value gives false |
| Records.ContainsService | src/com/android/nfc/cardemulation/RegisteredServicesCache.java:261-266 | true exactly when some record of the list has the component |
| JavaText.ParseIntOfIntToString | src/com/android/nfc/cardemulation/RegisteredServicesCache.java:688 | `Integer.parseInt` reads back every uid `Integer.toString` writes |
| Reconcile.DiscoveredMap | src/com/android/nfc/cardemulation/RegisteredServicesCache.java:381-385 | after putting the discovered records in turn, the keys are exactly the discovered components, each mapped to its last discovered record |
| Reconcile.ReconciledRecords | src/com/android/nfc/cardemulation/RegisteredServicesCache.java:372-412 | after a rescan the service keys are exactly the discovered components. Each record keeps its discovered identity, uid, categories and filters. A surviving overlay entry adds its groups by category; its secure element and observe mode overwrite the record only when set. Without an entry the record's own values stay |
| Reconcile.OverlaidRecord | src/com/android/nfc/cardemulation/RegisteredServicesCache.java:396-410 | the same, for one record of any service map and overlay |
| Reconcile.OrphansDropped | src/com/android/nfc/cardemulation/RegisteredServicesCache.java:389-420 | every remaining overlay entry has a service of the same component and uid; an entry is kept, unchanged, exactly when it has one; dynamic_aids.xml is due exactly when an entry was dropped |
| Reconcile.SurvivorsOf | src/com/android/nfc/cardemulation/RegisteredServicesCache.java:389-417 | the anti-spoofing rule on any service map: what stays, with its values, and that toBeRemoved is non-empty exactly when the overlay changed |
| Reconcile.OthersReconciled | src/com/android/nfc/cardemulation/RegisteredServicesCache.java:438-481 | after the rescan the statuses are exactly those of the "other" services; a new status is checked and carries the record's uid; an existing one is kept; each such record's enabled flag equals its status |
| Reconcile.OthersOfServices | src/com/android/nfc/cardemulation/RegisteredServicesCache.java:461-481 | the same, on any service map |
| Reconcile.ReconciledOthersChanged | src/com/android/nfc/cardemulation/RegisteredServicesCache.java:437-485 | a status went or came exactly when the status map changed |
| Reconcile.OthersWriteWhenChanged | src/com/android/nfc/cardemulation/RegisteredServicesCache.java:437-485 | other_status.xml is due exactly when the statuses changed |
| Reconcile.ReconcileIdempotent | src/com/android/nfc/cardemulation/RegisteredServicesCache.java:363-430 | a second rescan with the same list changes nothing and writes neither file |
| Invalidation.RemoveStale | src/com/android/nfc/cardemulation/RegisteredServicesCache.java:372-380 | the iterator loop removes exactly the records whose component was not discovered |
| Invalidation.PutDiscovered | src/com/android/nfc/cardemulation/RegisteredServicesCache.java:381-385 | the put loop yields the discovered map |
| Invalidation.RebuildServices | src/com/android/nfc/cardemulation/RegisteredServicesCache.java:372-385 | the rebuilt service map is the discovered map, whatever the map held before |
| Invalidation.ApplyGroups | src/com/android/nfc/cardemulation/RegisteredServicesCache.java:400-402 | `setDynamicAidGroup` for every group of an entry files each one under its category |
| Invalidation.OverlayRecord | src/com/android/nfc/cardemulation/RegisteredServicesCache.java:400-410 | one surviving entry applied to its record gives `Overlaid` |
| Invalidation.ApplyDynamicSettings | src/com/android/nfc/cardemulation/RegisteredServicesCache.java:388-412 | the loop applies every surviving entry; toBeRemoved holds exactly the entries without a service of the same uid |
| Invalidation.RemoveEntries | src/com/android/nfc/cardemulation/RegisteredServicesCache.java:413-417 | the entries of toBeRemoved, and only those, are removed |
| Invalidation.RemovedLeaveSurvivors | src/com/android/nfc/cardemulation/RegisteredServicesCache.java:413-417 | what is left after the removal is exactly the surviving entries |
| Invalidation.Listed | src/com/android/nfc/cardemulation/RegisteredServicesCache.java:443-444 | the set of components `containsServiceLocked` finds in the list |
| Invalidation.DropUnlisted | src/com/android/nfc/cardemulation/RegisteredServicesCache.java:438-449 | the first loop keeps exactly the statuses of listed components; needToWrite says one went |
| Invalidation.AdoptListed | src/com/android/nfc/cardemulation/RegisteredServicesCache.java:461-481 | the second loop gives each listed "other" record its status (a new checked one when missing) and its flag; it reports whether a status was added |
| Invalidation.ReconcileOthers | src/com/android/nfc/cardemulation/RegisteredServicesCache.java:437-485 | invalidateOther's statuses, records and needToWrite, for any list of the map's own records |
| Invalidation.StatusesChanged | src/com/android/nfc/cardemulation/RegisteredServicesCache.java:437-481 | needToWrite: a status of an unlisted component goes, or a listed "other" record lacks one |
| Invalidation.InvalidateOtherOfCategory | src/com/android/nfc/cardemulation/RegisteredServicesCache.java:423-425 | given the user's "other" records as the list, invalidateOther yields the reconciled statuses and flags |
| Documents.GroupsByCategory | src/com/android/nfc/cardemulation/RegisteredServicesCache.java:564-567 | the group map built from the groups read is keyed by category, has exactly their categories, and each value is one of the groups |
| Documents.GroupsByCategoryLast | src/com/android/nfc/cardemulation/RegisteredServicesCache.java:565-567 | the put order decides: the last group read of a category is the one filed under it |
| Documents.DynamicRoundTrip | src/com/android/nfc/cardemulation/RegisteredServicesCache.java:673-713 | for a platform whose `flattenToString` / `unflattenFromString` round-trip (`NamesRoundTrip`) and a table whose every overlay uid belongs to the user it is filed under (`DynamicFiled`), reading back what `writeDynamicSettingsLocked` wrote does not fail. It adds to each user exactly the entries the reader keeps (uid >= 0, and a group or a secure element). Records and statuses are not touched |
| Documents.ReadDynamicKeepsOnlyValid | src/com/android/nfc/cardemulation/RegisteredServicesCache.java:556-572 | whatever the document holds, a read only files entries with a uid >= 0 and a group or a secure element. Each goes under `userOf(uid)` with its groups by category. Records and statuses are untouched |
| Documents.ReadDynamicFailure | src/com/android/nfc/cardemulation/RegisteredServicesCache.java:583-585 | the read fails (and the file is deleted) exactly at a malformed point: never without one, always for a `services` document with one |
| Documents.DynamicCorruptTail | src/com/android/nfc/cardemulation/RegisteredServicesCache.java:583-585 | a document that turns malformed after complete entries fails, yet keeps the entries read before that point |
| Documents.OthersRoundTrip | src/com/android/nfc/cardemulation/RegisteredServicesCache.java:715-772 | under `NamesRoundTrip` and a table whose every status uid belongs to the user it is filed under (`OthersFiled`), reading back what `writeOthersLocked` wrote does not fail and adds to each user exactly its statuses with uid >= 0, with their checked flags; records and overlays are untouched |
| Documents.ReadOthersKeepsOnlyValid | src/com/android/nfc/cardemulation/RegisteredServicesCache.java:638-652 | a read of other_status.xml only files statuses with a uid >= 0 under `userOf(uid)` |
| Documents.ReadOthersFailure | src/com/android/nfc/cardemulation/RegisteredServicesCache.java:660-663 | the other_status.xml read fails exactly at a malformed point |
| Documents.DescribesDynamicFrame | src/com/android/nfc/cardemulation/RegisteredServicesCache.java:682-701 | dynamic_aids.xml depends only on the overlay entries of the user table |
| Documents.DescribesOthersFrame | src/com/android/nfc/cardemulation/RegisteredServicesCache.java:728-760 | other_status.xml depends only on the statuses of the user table |
| Documents.DynamicGrowthWellFormed | src/com/android/nfc/cardemulation/RegisteredServicesCache.java:564-571 | a read keeps every record under its component and every group under its category |
| Documents.FiledViews | src/com/android/nfc/cardemulation/RegisteredServicesCache.java:562-571 | a table filed by user (`UsersFiled`, the cache's invariant) meets the filing premise of both round trips |
| Documents.DynamicGrowthFiled | src/com/android/nfc/cardemulation/RegisteredServicesCache.java:562-571 | a read of dynamic_aids.xml files each new entry under `getUserHandleForUid(uid)`, so the table stays filed by user |
| Documents.OthersGrowthFiled | src/com/android/nfc/cardemulation/RegisteredServicesCache.java:644-650 | the same for a read of other_status.xml |
| Documents.OthersGrowthWellFormed | src/com/android/nfc/cardemulation/RegisteredServicesCache.java:644-650 | the same for a read of other_status.xml |
| Persistence.CollectGroups | src/com/android/nfc/cardemulation/RegisteredServicesCache.java:565-567 | the put loop yields `GroupsByCategory` |
| Persistence.ReadDynamicEvents | src/com/android/nfc/cardemulation/RegisteredServicesCache.java:512-581 | the event loop of `readDynamicSettingsLocked` computes the fold `ReadDynamic`, both the table and whether it threw |
| Persistence.ReadOthersEvents | src/com/android/nfc/cardemulation/RegisteredServicesCache.java:608-658 | the event loop of `readOthersLocked` computes `ReadOthers` |
| Persistence.WriteGroups | src/com/android/nfc/cardemulation/RegisteredServicesCache.java:696-698 | every group of the entry is written once, in some order |
| Persistence.SettingsAttributes | src/com/android/nfc/cardemulation/RegisteredServicesCache.java:686-694 | the attributes of one `service` element: component and uid always, offHostSE and shouldDefaultToObserveMode only when set (`DynamicAttributes`) |
| Persistence.WriteSettingsElement | src/com/android/nfc/cardemulation/RegisteredServicesCache.java:685-699 | one whole `service` element: its attributes, every group of the entry once, its end tag (`DynamicElement` of an entry listing exactly its groups) |
| Persistence.WriteUserSettings | src/com/android/nfc/cardemulation/RegisteredServicesCache.java:684-699 | appends every overlay entry of one user exactly once, after the entries already written |
| Persistence.WriteDynamicEvents | src/com/android/nfc/cardemulation/RegisteredServicesCache.java:682-701 | the output holds every overlay entry of every user, each once |
| Persistence.AlreadyWritten | src/com/android/nfc/cardemulation/RegisteredServicesCache.java:740-746 | the duplicate check of `writeOthersLocked` finds exactly the components already written |
| Persistence.WriteUserOthers | src/com/android/nfc/cardemulation/RegisteredServicesCache.java:733-759 | appends every status of one user exactly once, with its uid and flag, after the entries already written; the `currentService` list skips repeats |
| Persistence.WriteOthersEvents | src/com/android/nfc/cardemulation/RegisteredServicesCache.java:728-760 | the output holds every status of every user, each once |
| Registrations.SecureElementSet | src/com/android/nfc/cardemulation/RegisteredServicesCache.java:798-811 | the outcome of a written `setOffHostSecureElement`; it keeps the registry well formed |
| Registrations.SecureElementCleared | src/com/android/nfc/cardemulation/RegisteredServicesCache.java:798-808 | the outcome of a failed write: the entry, when there is one, loses its secure element; well formed |
| Registrations.SecureElementReset | src/com/android/nfc/cardemulation/RegisteredServicesCache.java:841-852 | the outcome of a written `resetOffHostSecureElement` for a service with an overlay entry; well formed |
| Registrations.SecureElementResetChecked | src/com/android/nfc/cardemulation/RegisteredServicesCache.java:841-852 | the null-checked reset: the record returns to its manifest's secure element; an existing entry loses its secure element, and no entry is made; well formed |
| Registrations.SetThenResetThrows | src/com/android/nfc/cardemulation/RegisteredServicesCache.java:798-811 | `setOffHostSecureElement` on an off-host service without an overlay entry leaves the state in which `resetOffHostSecureElement`, as written, dereferences a null entry (:841-842) |
| Registrations.SetThenResetThrowsExample | src/com/android/nfc/cardemulation/RegisteredServicesCache.java:841-842 | the concrete input: one off-host service with uid 10, no overlay entry, secure element "eSE1" |
| Registrations.CheckedResetUndoesSet | src/com/android/nfc/cardemulation/RegisteredServicesCache.java:818-857 | with the null check, a reset after a set is the same as a reset alone, with or without an entry |
| Registrations.ObserveModeSet | src/com/android/nfc/cardemulation/RegisteredServicesCache.java:876-884 | the outcome of `setShouldDefaultToObserveModeForService`; well formed |
| Registrations.PollingLoopFilterAdded | src/com/android/nfc/cardemulation/RegisteredServicesCache.java:911 | the outcome of `registerPollingLoopFilterForService`; well formed |
| Registrations.AidGroupRegistered | src/com/android/nfc/cardemulation/RegisteredServicesCache.java:949-956 | the outcome of a written `registerAidGroupForService`; well formed |
| Registrations.AidGroupRegistrationUndone | src/com/android/nfc/cardemulation/RegisteredServicesCache.java:949-965 | the outcome of a failed write: the entry stays, without a group of the category, and the record keeps the new group; well formed |
| Registrations.AidGroupDropped | src/com/android/nfc/cardemulation/RegisteredServicesCache.java:1037-1041 | only the record loses the group; well formed |
| Registrations.AidGroupRemoved | src/com/android/nfc/cardemulation/RegisteredServicesCache.java:1037-1045 | the record and the entry lose the group; well formed |
| Registrations.OtherServiceChecked | src/com/android/nfc/cardemulation/RegisteredServicesCache.java:1091-1092 | the record's flag and the status take the user's choice; well formed |
| Registrations.RescannedRecord | src/com/android/nfc/cardemulation/RegisteredServicesCache.java:381-412 | after a rescan a component's record is its last discovered record with its own overlay entry applied, then its status flag |
| Registrations.AidGroupSurvivesRescan | src/com/android/nfc/cardemulation/RegisteredServicesCache.java:956 | a registered group is applied again to the rediscovered record, which then has the category |
| Registrations.UndoneRegistrationLostOnRescan | src/com/android/nfc/cardemulation/RegisteredServicesCache.java:964 | after a failed registration the record has the group only until the rescan |
| Registrations.RemovedGroupStaysRemoved | src/com/android/nfc/cardemulation/RegisteredServicesCache.java:1044 | a removed group does not come back at the rescan unless the manifest record has it |
| Registrations.ObserveModeSurvivesRescan | src/com/android/nfc/cardemulation/RegisteredServicesCache.java:884 | the mode a service set is the mode of the rediscovered record |
| Registrations.ObserveModeTextRead | src/com/android/nfc/cardemulation/RegisteredServicesCache.java:406-408 | the text `Boolean.toString` writes reads back through `convertValueToBoolean` as the same mode |
| Registrations.SecureElementAtRescan | src/com/android/nfc/cardemulation/RegisteredServicesCache.java:798-802 | a secure element set for a service with an entry survives the rescan; for a service without one it is lost |
| Registrations.ResetSecureElementAtRescan | src/com/android/nfc/cardemulation/RegisteredServicesCache.java:843 | after a reset, with or without an entry, the rediscovered record keeps its discovered secure element |
| Registrations.PollingLoopFilterLostOnRescan | src/com/android/nfc/cardemulation/RegisteredServicesCache.java:911 | a polling-loop filter is not persisted: after the rescan the record has the discovered record's filters |
| Registrations.OtherChoiceSurvivesRescan | src/com/android/nfc/cardemulation/RegisteredServicesCache.java:1091-1092 | the user's choice for an "other" service survives the rescan while the service stays in the category |
| Rollback.Removed | src/com/android/nfc/cardemulation/RegisteredServicesCache.java:1044 | `HashMap.remove` returns the group of the category, or null when there is none |
| Rollback.RestoreAsWritten | src/com/android/nfc/cardemulation/RegisteredServicesCache.java:1050 | the rollback as written puts whatever remove returned, null included |
| Rollback.RestoreRemovedGroup | src/com/android/nfc/cardemulation/RegisteredServicesCache.java:1050 | the intended rollback puts the group back only when one was removed |
| Rollback.RestoreUndoesRemoval | src/com/android/nfc/cardemulation/RegisteredServicesCache.java:1044-1050 | the intended rollback restores the group map exactly, whether or not it held the category |
| Rollback.RestoreKeepsKeyed | src/com/android/nfc/cardemulation/RegisteredServicesCache.java:1044-1050 | the intended rollback keeps the groups under their categories |
| Rollback.RestoreAsWrittenAfterRemoval | src/com/android/nfc/cardemulation/RegisteredServicesCache.java:1044-1050 | as written, the rollback is right when a group was removed |
| Rollback.RestoreAsWrittenLeavesNull | src/com/android/nfc/cardemulation/RegisteredServicesCache.java:1044-1050 | as written, rolling back when the category was absent leaves a null group under it |
| Rollback.RestoreAsWrittenExample | src/com/android/nfc/cardemulation/RegisteredServicesCache.java:1044-1050 | the concrete input: no groups and category "payment" |
| ServicesCache.SelectServices | src/com/android/nfc/cardemulation/RegisteredServicesCache.java:288-298 | one pass over the records lists each chosen record exactly once, and no other |
| ServicesCache.ServiceValues | src/com/android/nfc/cardemulation/RegisteredServicesCache.java:279-286 | `services.values()` copied into a list: every record exactly once |
| ServicesCache.ServicesOfCategory | src/com/android/nfc/cardemulation/RegisteredServicesCache.java:288-298 | every record that has the category, exactly once |
| ServicesCache.AllAidsValid | src/com/android/nfc/cardemulation/RegisteredServicesCache.java:942-948 | true exactly when every AID of the group passes `isValidAid` |
| ServicesCache.ListedOthers | src/com/android/nfc/cardemulation/RegisteredServicesCache.java:423-424 | the "other" records passed to invalidateOther are the map's own, and their components are the "other" components |
| ServicesCache.OthersWriteOfCategory | src/com/android/nfc/cardemulation/RegisteredServicesCache.java:437-485 | invalidateOther's needToWrite on that list is `OthersNeedWrite` |
| ServicesCache.RemovalsNeedWrite | src/com/android/nfc/cardemulation/RegisteredServicesCache.java:413 | toBeRemoved is non-empty exactly when `DynamicNeedsWrite` holds |
| ServicesCache.Installed | src/com/android/nfc/cardemulation/RegisteredServicesCache.java:372-420 | the registry after the locked block of invalidateCache has the overlaid services, keeps the statuses, and keeps exactly the surviving overlay entries with their values |
| ServicesCache.DiscoveredFiled | src/com/android/nfc/cardemulation/RegisteredServicesCache.java:300-320 | when discovery for a user lists only that user's uids, the rebuilt service map holds only that user's uids |
| ServicesCache.InstalledFiled | src/com/android/nfc/cardemulation/RegisteredServicesCache.java:372-420 | the first block of `invalidateCache` keeps the registry filed by user: records come from discovery, overlay entries are kept only for a record of the same uid, statuses are untouched |
| ServicesCache.CacheDynamicRoundTrip | src/com/android/nfc/cardemulation/RegisteredServicesCache.java:673-713 | for any table the cache can hold (filed by user) and a platform meeting `NamesRoundTrip`, reading the document written for it into an empty table does not fail and gives each user exactly its kept overlay entries |
| ServicesCache.CacheOthersRoundTrip | src/com/android/nfc/cardemulation/RegisteredServicesCache.java:715-772 | the same for other_status.xml: the read does not fail and each user gets exactly its statuses with uid >= 0 |
| ServicesCache.InstalledWellFormed | src/com/android/nfc/cardemulation/RegisteredServicesCache.java:372-420 | that block keeps the registry well formed |
| ServicesCache.InstalledThenReconciled | src/com/android/nfc/cardemulation/RegisteredServicesCache.java:423-424 | invalidateOther after that block completes `Reconciled` |
| ServicesCache.PutOver | src/com/android/nfc/cardemulation/RegisteredServicesCache.java:137-144 | creating the user first makes no difference once its registry is replaced |
| ServicesCache.RegisteredServicesCache.constructor | src/com/android/nfc/cardemulation/RegisteredServicesCache.java:154-216 | the cache starts with no user, on the files the data directory holds |
| ServicesCache.RegisteredServicesCache.FindOrCreateUser | src/com/android/nfc/cardemulation/RegisteredServicesCache.java:137-144 | returns the user's registry, adding an empty one when there was none, and changes nothing else |
| ServicesCache.RegisteredServicesCache.GetService | src/com/android/nfc/cardemulation/RegisteredServicesCache.java:272-277 | the record of the component if the user has one |
| ServicesCache.RegisteredServicesCache.HasService | src/com/android/nfc/cardemulation/RegisteredServicesCache.java:268-270 | whether the user has a record of the component |
| ServicesCache.RegisteredServicesCache.GetServices | src/com/android/nfc/cardemulation/RegisteredServicesCache.java:279-286 | every record of the user exactly once |
| ServicesCache.RegisteredServicesCache.GetServicesForCategory | src/com/android/nfc/cardemulation/RegisteredServicesCache.java:288-298 | every record of the user that has the category, exactly once |
| ServicesCache.RegisteredServicesCache.ReadDynamicSettings | src/com/android/nfc/cardemulation/RegisteredServicesCache.java:504-594 | a missing file loads nothing; otherwise the table is `ReadDynamic` and a file that fails to parse is deleted |
| ServicesCache.RegisteredServicesCache.ReadOthersFile | src/com/android/nfc/cardemulation/RegisteredServicesCache.java:596-671 | the same for other_status.xml |
| ServicesCache.RegisteredServicesCache.WriteDynamicSettings | src/com/android/nfc/cardemulation/RegisteredServicesCache.java:673-713 | on success the file describes the overlay entries of every user; on failure the old file stays; the table is unchanged |
| ServicesCache.RegisteredServicesCache.WriteOthers | src/com/android/nfc/cardemulation/RegisteredServicesCache.java:715-772 | the same for the statuses and other_status.xml |
| ServicesCache.RegisteredServicesCache.InvalidateCache | src/com/android/nfc/cardemulation/RegisteredServicesCache.java:363-430 | for a discovered list of the user's own services (`InstalledFor`), a null list changes nothing and sends no callback. Otherwise the user's registry becomes `Reconciled`. Each file is written exactly when `DynamicNeedsWrite` / `OthersNeedWrite` holds, and then describes the final table. The callback gets the discovered list with the cache's objects |
| ServicesCache.RegisteredServicesCache.ApplyInstalled | src/com/android/nfc/cardemulation/RegisteredServicesCache.java:369-420 | the locked block: the registry becomes `Installed`, and dynamic_aids.xml is written exactly when an entry was removed |
| ServicesCache.RegisteredServicesCache.InvalidateOtherCategory | src/com/android/nfc/cardemulation/RegisteredServicesCache.java:423-424 | invalidateOther on the "other" records: the statuses and flags are reconciled, and dynamic_aids.xml still describes the table |
| ServicesCache.RegisteredServicesCache.InvalidateOther | src/com/android/nfc/cardemulation/RegisteredServicesCache.java:432-487 | the registry's statuses and records after invalidateOther; other_status.xml is written exactly when needToWrite |
| ServicesCache.RegisteredServicesCache.Notify | src/com/android/nfc/cardemulation/RegisteredServicesCache.java:811 | the callback list holds every record of the user exactly once |
| ServicesCache.RegisteredServicesCache.Put | src/com/android/nfc/cardemulation/RegisteredServicesCache.java:137-144 | replaces the user's registry and keeps every other user |
| ServicesCache.RegisteredServicesCache.SetOffHostSecureElement | src/com/android/nfc/cardemulation/RegisteredServicesCache.java:774-816 | an unknown service, another uid, a null secure element or an on-host service: false, and nothing observable changes (`findOrCreateUserLocked` may have added an empty registry). A good write gives `SecureElementSet`, the file and the callback. A failed one gives `SecureElementCleared`, and the record is untouched |
| ServicesCache.RegisteredServicesCache.ResetOffHostSecureElement | src/com/android/nfc/cardemulation/RegisteredServicesCache.java:818-857 | rejections and a failed write change nothing observable (`findOrCreateUserLocked` may have added an empty registry): the previous secure element is restored. A good write gives `SecureElementResetChecked`, the file and the callback. This covers a service with no overlay entry, which `setOffHostSecureElement` leaves behind; the source throws there (see Findings) |
| ServicesCache.RegisteredServicesCache.SetShouldDefaultToObserveModeForService | src/com/android/nfc/cardemulation/RegisteredServicesCache.java:859-887 | true exactly for a service of the caller, with `ObserveModeSet`; nothing is written |
| ServicesCache.RegisteredServicesCache.RegisterPollingLoopFilterForService | src/com/android/nfc/cardemulation/RegisteredServicesCache.java:891-916 | true exactly for a service of the caller, with `PollingLoopFilterAdded` and the callback; nothing is written |
| ServicesCache.RegisteredServicesCache.RegisterAidGroupForService | src/com/android/nfc/cardemulation/RegisteredServicesCache.java:920-972 | rejections (unknown service, uid, an invalid AID) change nothing observable (`findOrCreateUserLocked` may have added an empty registry). A good write gives `AidGroupRegistered`, the file and the callback. A failed one gives `AidGroupRegistrationUndone` |
| ServicesCache.RegisteredServicesCache.RemoveAidGroupForService | src/com/android/nfc/cardemulation/RegisteredServicesCache.java:1024-1064 | rejections change nothing observable (`findOrCreateUserLocked` may have added an empty registry). With an entry and a good write: `AidGroupRemoved`, the file and the callback. Without an entry, or after a failed write: `AidGroupDropped`, with the intended rollback |
| ServicesCache.RegisteredServicesCache.RegisterOtherForService | src/com/android/nfc/cardemulation/RegisteredServicesCache.java:974-1007 | an unknown service fails and changes nothing observable (`findOrCreateUserLocked` may have added an empty registry); otherwise updateOtherServiceStatus, and on success the callback with validateInstalled false |
| ServicesCache.RegisteredServicesCache.UpdateOtherServiceStatus | src/com/android/nfc/cardemulation/RegisteredServicesCache.java:1076-1095 | without a status, or with the flag already so, false and nothing observable changes (`findOrCreateUserLocked` may have added an empty registry); otherwise `OtherServiceChecked` is kept whether or not the write succeeds, and the result is the write's |
| ServicesCache.RegisteredServicesCache.GetAidGroupForService | src/com/android/nfc/cardemulation/RegisteredServicesCache.java:1009-1022 | the record's dynamic group of the category, exactly for a service of the caller that has one |
| ServicesCache.RegisteredServicesCache.DoesServiceShouldDefaultToObserveMode | src/com/android/nfc/cardemulation/RegisteredServicesCache.java:1066-1074 | the record's observe mode, false for an unknown service |

## Left out

- The broadcast receiver, its intent filters, `getProfileParentId`, `refreshUserProfilesLocked`, `onUserSwitched` and `onManagedProfileChanged`: Android event plumbing and `UserManager` queries.
- `initialize`: it only composes `ReadDynamicSettings`, `ReadOthersFile` and `InvalidateCache` (with validateInstalled false) over `mUserHandles`. That list is the enabled profiles minus those in quiet mode, and both come from `UserManager`.
- `getInstalledServices`: package-manager discovery. Its result is the `installed` input of `InvalidateCache` (None for null). The query is made for `UserHandle.of(userId)`, so `InvalidateCache` requires that every listed service's uid belong to that user (`InstalledFor`).
- `ComponentName.flattenToString` and `unflattenFromString` are parameters of the platform. The round-trip lemmas assume they are inverse on every component (`NamesRoundTrip`), as the framework documents them.
- The managed-profile lookup in `invalidateOther`: the source forces `isChecked` to true, so a new status is always checked.
- `dump`, `dumpDebug` and every `Log` call: diagnostics.
- `mLock` and `synchronized`: the model is sequential. The callback is a returned value, not a call made after the lock is released.
- XML bytes, `FastXmlSerializer`, `AtomicFile`, `AidGroup.createFromXml` and `writeAsXml`. A document is a list of parser events, and an AID group is an opaque value carried by its start tag.
- Text details of the document: whitespace, attribute order and entity escaping. Outside ASCII digits, `Integer.parseInt` also accepts other Unicode digits; the model treats only ASCII digits as digits.
- `ApduServiceInfo` beyond the fields the cache touches. `hasCategory` is modelled as the manifest categories plus the dynamic group categories. `resetOffHostSecureElement` restores the manifest's secure element. `addPollingLoopFilter` is modelled as a map put.
- HashMap and SparseArray iteration order. The writers visit entries in an unspecified order, and their output is stated against any enumeration.
- Whether a file write succeeds (I/O) is a parameter of each method that writes.
- ResetOffHostSecureElement: does not model the NullPointerException the source throws at :841-842 for a service that passes the checks but has no overlay entry. `SetOffHostSecureElement` itself produces that state whenever the service has none (`Registrations.SetThenResetThrows`). The manifest can also declare a secure element for a service without an entry. For such a service the method takes the null-checked path `Registrations.SecureElementResetChecked`; see Findings.
- RemoveAidGroupForService: its rollback after a failed write is the intended one (`Rollback.RestoreRemovedGroup`), not the one written in the source; see Findings.

## Findings

| source | as written | input that shows it | evidently intended | confidence | as-written member | corrected member |
|---|---|---|---|---|---|---|
| src/com/android/nfc/cardemulation/RegisteredServicesCache.java:1044-1050 | on a failed write `removeAidGroupForService` puts back whatever `aidGroups.remove(category)` returned. When the overlay entry had no group of that category, that value is null, and a null group is left in the entry. This state is reachable: a failed `registerAidGroupForService` keeps the group in the record but removes it from the entry. The later writer and rescan would then call methods on that null group | an entry with no groups and category "payment": the rollback leaves `{"payment": null}` instead of an empty map | put the group back only when one was removed | not executed | Rollback.RestoreAsWrittenLeavesNull | Rollback.RestoreUndoesRemoval |
| src/com/android/nfc/cardemulation/RegisteredServicesCache.java:841-842 | `resetOffHostSecureElement` reads `dynSettings.offHostSE` without checking `dynSettings` for null. A service passes its checks with an off-host secure element but no overlay entry in two cases: `setOffHostSecureElement` set one on a service without an entry (it puts no new entry, :798-811), or the manifest declares one. The call then throws a NullPointerException | a registry with one off-host service of uid 10 and no overlay entry: `setOffHostSecureElement("eSE1")`, then `resetOffHostSecureElement` | skip the overlay when there is no entry, then reset the record to its manifest's secure element | not executed | Registrations.SetThenResetThrows | Registrations.CheckedResetUndoesSet |
