# A verified model of Pingap's configuration, cache, reload and routing core

Pingap is a reverse proxy. This project models, in Dafny, the parts of it whose behaviour is
hardest to see from any one function, and proves what those parts keep, lose and guarantee. All
files are checked together: `dafny verify dfyconfig.toml`.

**The configuration store** (`Toml`, `Layout`, `Addresses`, `ConfigStore`, `ConfigRefinement`, `WholeSave`,
`AnySave`, `Migration`, `SteadyState`, `ConfigManager`, `References`, `ConfigLocking`,
`MigrationRace`). One logical configuration, a map from (category, name) to a value, is kept in a
directory of TOML files in one of three layouts. The manager edits it file by file, migrates
between layouts, and serialises concurrent callers with one lock. A file is a document: the
entries it defines and the section headers it opens. The order in which the TOML library walks a
table is a parameter, and every result holds for every order that visits each key once
(`Toml.OrderExists`: there is one). Names are any strings: an item without a name, whose fields
the per-item layout writes as items of their own, and a name the storage refuses are cases of the
results about saves and migrations.

**The format converters** (`DisjointUnion`, `Assembly`, `Completion`, `Hcl*`, `Kdl*`, `Escape`). TOML is
printed as HCL or KDL and read back. Documents are trees of blocks or nodes. The printers and
readers are given twice: as functions, about which the round trips are proved, and as the loops
the converters are, proved equal to the functions. What a document means is stated a third time, on
its own blocks and nodes, and both readers are proved to give that meaning.

**The file cache** (`CacheObject`, `CacheEviction`, `FileCache`, `CacheStorage`, `CacheRuns`,
`CacheEffects`).
Files on disk with a byte budget and least-recently-accessed eviction, below a memory layer that
may forget anything between any two operations. A namespace is a relative path: it is resolved to
the directories it leads through, and files are compared by where they are.

**The policy reload protocol and routing** (`PolicyReload`, `RouteReload`, `PolicyPublisher`,
`Routing`). Any number of reloaders and readers interleave step by step; the routes of the servers
are published apart from the locations; locations are tried by descending weight.

Several natural claims are false of the code. For each of them the project has a lemma with a
concrete input on which it fails, and a lemma that says exactly when it holds.

## Where the code and its comments differ

The model follows the code.

- `put` says it accounts for overwriting "so the budget stays honest". If the overwritten file is
  itself evicted to make room, its length is subtracted twice: `FileCache.CountCanFallShort`,
  `FileCache.PutExactIff`.
- `purge_namespace` says a purged object cannot keep being served from memory. It can, if its file
  was evicted or cleared first: `CacheRuns.EvictedStillServed`, `CacheRuns.PurgeServesIff`.
- `purge_namespace` asks for a plain non-empty namespace so as not to walk the root. It accepts
  `.`, which is the root: `FileCache.NamespacesCollide`, `FileCache.PurgeReachesIff`.
- `migrate_layout` writes the new layout first so that an interruption loses nothing. It can:
  `Migration.InterruptedMigrationCanLose`, `Migration.SafeToInterruptIff`. Without any
  interruption an item whose name is empty is lost: `Migration.UnnamedItemIsLost`,
  `Migration.MigrationPreservesIff`.
- `migrate_layout` asks to be called before the first write. Beside one it loses it:
  `MigrationRace.EveryEditCanBeLost`, `MigrationRace.ItemRaceKeepsIff`.
- A request whose routing policy changes under it is to fail. The routes of the servers are
  published without the generation that tells, so it need not: `RouteReload.EveryReloadCanBeMixed`,
  `RouteReload.OrderlyReadMixesIff`.
- `remove` refuses what is still in use, except storages that are included:
  `References.StorageInUseIsDeleted`, `References.RefusedIffDangling`.
- The KDL printer says its `item` blocks preserve all data. A scalar next to a table in one list
  reads back as an empty table: `KdlDocument.ScalarNextToTableIsLost`, `KdlRoundTrip.ValueKeptIff`.
- `get_weight` documents "+128" for a host. A host list with a regular expression in it counts its
  length instead: `Routing.BandsApartIff`.

## Model

| member | source | states |
|---|---|---|
| `Layout.RenderInjective` | pingap-config/src/manager.rs:343-368 | different kinds of files never share a path: distinct categories, items and the single file have distinct storage keys |
| `Layout.EveryPathHasKind` | pingap-config/src/manager.rs:385-417 | every `.toml` path is the path of one of the kinds of files the model uses |
| `Layout.GetKeyIsHome` | pingap-config/src/manager.rs:343-368 | the key computed for an entry is the path of its home file in the mode, and an error for a name the path test rejects (`Addresses.KeyIs` says on characters which names and which paths those are) |
| `Addresses.KeyIs` | pingap-config/src/manager.rs:343-368 | a name without a `/`, a backslash or a NUL in it has a key, written out for each of the three layouts; every other name is an error |
| `Addresses.CanonicalPathsIff` | pingap-config/src/manager.rs:385-417 | the canonical keys written out: any in the single layout, the seven section files by type, `basic.toml` and one file below a section directory by item |
| `Layout.CanonicalIffOwned` | pingap-config/src/manager.rs:385-417 | the string test for a canonical key accepts exactly the paths of files this mode writes itself |
| `ConfigStore.SaveCanonical` | pingap-config/src/file_storage.rs:248-262 | saving a document of entries that live in a file replaces exactly those entries in the loaded map and keeps the directory canonical |
| `ConfigStore.OneEntryHeader` | pingap-config/src/manager.rs:101-128 | when a section of one entry opens a header of its own, value by value |
| `ConfigStore.RemoveCanonical` | pingap-config/src/file_storage.rs:264-274 | deleting a file removes exactly the entries that live in it and keeps the directory canonical |
| `ConfigRefinement.EntryOpRefinesIff` | pingap-config/src/manager.rs:539-608 | from a canonical directory, in every layout, one update or delete changes exactly the addressed entry of the loaded map, or nothing if refused, if and only if it is not a per-item update whose name is empty for an item or not empty for the basic section; the directory then stays canonical |
| `ConfigRefinement.ItemUpdateExactIffWellNamed` | pingap-config/src/manager.rs:539-570 | in the per-item layout an update stores exactly the given entry if and only if the name is empty for the basic section and not empty for any other |
| `Addresses.UpdateStored` | pingap-config/src/manager.rs:539-570 | an update under a name without a `/`, a backslash or a NUL leaves a readable directory; the entry reads back and loads with the given fields, every other entry as before |
| `Addresses.DeleteRemoves` | pingap-config/src/manager.rs:590-608 | an accepted delete under such a name leaves a readable directory without the entry; every other entry loads as before |
| `Addresses.RefusedChangesNothing` | pingap-config/src/manager.rs:539-608 | under any other name an update, a delete and a read are errors and no file changes; nor does any for an entry in use |
| `ConfigRefinement.RunsRefine` | pingap-config/src/manager.rs:539-608 | from a canonical directory any sequence of updates and deletes, refused ones included, refines the same sequence of edits of one abstract map, provided that in the per-item layout its updates are named in that way |
| `ConfigRefinement.LayoutsAgree` | pingap-config/src/manager.rs:129-208 | from canonical directories with equal contents, any two layouts load equal configurations after any sequence of edits whose updates are so named |
| `WholeSave.SaveWrites` | pingap-config/src/manager.rs:481-538 | the directory after a whole save, file by file, also when a refused name stopped it: exactly the files of the entries it came to are rewritten, each with its new content |
| `WholeSave.ItemPlanEnumerates` | pingap-config/src/manager.rs:510-534 | a per-item save visits every item of every section exactly once, whatever order tables are walked in |
| `AnySave.SaveStoresIff` | pingap-config/src/manager.rs:481-538 | for every directory that can be loaded, every configuration and every name: the next load sees the entries the save came to (those before a refused name), and in the per-item layout the old items besides, if and only if, with shared files, the files that stay hold nothing and open no section that is written; per item, files that stay hold nothing that is written, files that are rewritten hold nothing else, sections are opened once, and an item without a name is in a file that stays and its fields are old items |
| `WholeSave.SaveAllStoresIff` | pingap-config/src/manager.rs:481-538 | from a canonical directory that condition is: per item, every item the save came to has a name and no section would be opened by two files; the directory then stays canonical |
| `WholeSave.ItemSaveExactIff` | pingap-config/src/manager.rs:510-534 | in the per-item layout, from a canonical directory, saving everything is exact if and only if the items it came to have names, no section would be opened twice, and what it did not rewrite was already as saved |
| `WholeSave.GoodNamesExactIff` | pingap-config/src/manager.rs:510-534 | with names the storage accepts that last condition is: every stored item is among the saved ones |
| `WholeSave.PlainIsStorable` | pingap-config/src/manager.rs:61-83 | items that have names and are tables can always be stored: their files open no section |
| `ConfigRefinement.GetAgreesIff` | pingap-config/src/manager.rs:571-589 | reading single entries agrees with loading everything if and only if every storable entry lives in its home file |
| `SteadyState.EverAfterIff` | pingap-config/src/manager.rs:481-608 | a directory can be loaded, and single reads agree with the load, now and after every run of updates, deletes and whole saves that is admissible (in the per-item layout a whole save is storable and an update of an item without a name puts its fields where they do no harm; all other calls are), if and only if it can be loaded, entries are in their home files and, in the per-type layout, no section header stands in another file (unless the section holds an entry no call can delete and never opens its own header) |
| `SteadyState.UpdateReadableIff` | pingap-config/src/manager.rs:539-570 | in the per-item layout an update that is not refused leaves a readable directory readable if and only if it is admissible |
| `SteadyState.UnnamedUpdateBreaks` | pingap-config/src/manager.rs:539-570 | for every directory in the per-item layout: an update of an item with an empty name and one ordinary field is accepted, and afterwards the directory cannot be loaded or single reads disagree with the load |
| `SteadyState.StrayHeaderBreaksLater` | pingap-config/src/manager.rs:590-608 | a readable directory with nothing to migrate whose stray header makes it unreadable after one delete |
| `Migration.MigrateSaves` | pingap-config/src/manager.rs:452-480 | a migration that reports no error leaves the files of the new layout as written, plus exactly the owned files it did not rewrite |
| `Migration.SectionOrder` | pingap-config/src/manager.rs:492-509 | by type the seven section files are written in this order: basic, servers, locations, upstreams, plugins, certificates, storages |
| `Migration.SucceededIsGood` | pingap-config/src/manager.rs:452-480 | it reports no error exactly when the directory can be loaded and, in the per-item layout, no item has a name the storage refuses |
| `Migration.FailedMigrationRetiresNothing` | pingap-config/src/manager.rs:452-480 | if it reports an error every stale file is still there, unchanged |
| `Migration.MigrationPreservesIff` | pingap-config/src/manager.rs:452-480 | for every directory whose migration reports no error: the loaded configuration is unchanged if and only if there was nothing to migrate, or the layout is per type, or no entry with a file of its own is in a left over file, every item without a name is in one and has no fields, and no section would be opened by two files |
| `Migration.KeptEntryBreaks` | pingap-config/src/manager.rs:452-480 | a left over file that holds an entry that got its own file makes the directory unreadable |
| `Migration.MigratedCanonicalIff` | pingap-config/src/manager.rs:452-480 | exactly when the migrated directory has every old entry with its value in its home file and nothing else |
| `Migration.MigrationSettles` | pingap-config/src/manager.rs:424-480 | after a migration that reports no error nothing stale is left, and a second migration changes nothing |
| `SteadyState.ReadsAgreeEverAfterIff` | pingap-config/src/manager.rs:452-608 | a migration that reports no error keeps the configuration and from then on every admissible run leaves a directory that can be loaded and whose single reads agree with the load, if and only if that held before when there was nothing to migrate, and otherwise always per type, and per item when items have names, sections are opened once and left over files hold nothing |
| `Migration.SafeToInterruptIff` | pingap-config/src/manager.rs:452-480 | for every directory: after every prefix of the migration's saves and retirements each original entry is still held with its value, if and only if no file is rewritten or retired ahead of an entry it holds |
| `Migration.NamedOvertakenIff` | pingap-config/src/manager.rs:481-538 | with names for all items that happens exactly when the save of one file comes before the save of the home file of an entry the first file holds |
| `Migration.TypeSafeIff` | pingap-config/src/manager.rs:492-509 | in the per-type layout: exactly when a category file holds an entry of a later category |
| `Migration.UnnamedIsOvertaken` | pingap-config/src/manager.rs:61-83 | an item without a name is never safe unless its file is left over: nothing ever writes it |
| `Migration.ExactFilesMigrateSafely` | pingap-config/src/manager.rs:452-480 | when canonically named files hold only the entries their name stands for, a migration is safe to interrupt if and only if it has nothing to do, is per type or all items have names, and keeps the configuration if and only if besides no section would be opened twice |
| `Migration.InterruptedMigrationCanLose` | pingap-config/src/manager.rs:472-479 | a directory whose interrupted migration loses an entry |
| `Migration.LeftoverCanBreakTheDirectory` | pingap-config/src/manager.rs:424-435 | a directory that parses before its migration and not after |
| `Migration.UnnamedItemIsLost` | pingap-config/src/manager.rs:61-83 | a directory with an item whose name is empty: the migration succeeds, retires the file and the item is nowhere |
| `Migration.InlineItemsBreakTheDirectory` | pingap-config/src/manager.rs:61-83 | a directory with two items that are no tables: it parses before its migration and not after |
| `ConfigManager.Manager.LoadAll` | pingap-config/src/manager.rs:370-373 | for files that open sections by headers and entries that are not split over files, the loop over all files gives the merged configuration, and fails exactly when a file is malformed or an entry or header is repeated |
| `ConfigManager.Manager.StaleLayoutKeys` | pingap-config/src/manager.rs:424-435 | the filter by the string test for canonical keys lists exactly the files the mode would not have written, each once |
| `ConfigManager.Manager.SaveSections` | pingap-config/src/manager.rs:492-509 | one save per category file, in order |
| `ConfigManager.Manager.SavePlanned` | pingap-config/src/manager.rs:510-534 | one save per item, stopping at the first name the storage refuses |
| `ConfigManager.Manager.SaveAll` | pingap-config/src/manager.rs:481-538 | the stored files are those of the save plan of the mode, and the result tells whether the plan went through |
| `ConfigManager.Manager.Update` | pingap-config/src/manager.rs:539-570 | the new directory is the specified one; it fails exactly for a name with a `/`, a backslash or a NUL in it or, in a shared file, an unreadable directory |
| `ConfigManager.Manager.Delete` | pingap-config/src/manager.rs:590-608 | the new directory is the specified one; it fails exactly for a name with a `/`, a backslash or a NUL in it, an entry the scan of the running configuration finds in use or, in a shared file, an unreadable directory |
| `ConfigManager.Manager.RetireAll` | pingap-config/src/file_storage.rs:307-329 | the loop takes exactly the stale files out of the loaded directory and keeps the bytes of each |
| `ConfigManager.Manager.MigrateLayout` | pingap-config/src/manager.rs:452-480 | performs the specified migration; nothing is retired unless everything was written first |
| `ConfigManager.RunKeepsKinds` | pingap-config/src/manager.rs:343-368 | every call writes only paths of the kinds the string test tells apart, which the migration relies on |
| `ConfigManager.Manager.GetEntry` | pingap-config/src/manager.rs:571-589 | reads one entry from its home file only; an error for a name with a `/`, a backslash or a NUL in it |
| `References.Remove` | pingap-config/src/common.rs:1362-1415 | the scan refuses exactly the names still referred to and otherwise removes the entry |
| `References.RefusedIffDangling` | pingap-config/src/common.rs:1362-1415 | in a configuration whose references all resolve, a removal is refused if and only if it would leave a dangling reference and is not that of a storage; a storage is never refused, and dangles if and only if a server, location or upstream includes it |
| `References.KeptWhileReferred` | pingap-config/src/common.rs:1362-1415 | a location a server lists, a plugin a location lists and an upstream a location names are in use |
| `References.DeletedIsGone` | pingap-config/src/common.rs:1362-1415 | deleting an entry removes that name from that category; every other entry keeps its references |
| `References.DeletedStorageReadsEmpty` | pingap-config/src/common.rs:1189-1228 | after its removal exactly the places that include the storage read as empty text |
| `References.StorageInUseIsDeleted` | pingap-config/src/common.rs:1362-1415 | a storage an upstream includes whose removal is accepted and leaves the inclusion dangling |
| `ConfigLocking.InvAlways` | pingap-config/src/manager.rs:292-300 | in every state of every interleaving at most the lock holder is between snapshot and release, and what is stored is what the finished calls stored plus the holder's writes so far |
| `ConfigLocking.SnapshotIsCurrent` | pingap-config/src/manager.rs:481-608 | until the holder writes, the configuration it loaded is the stored one |
| `ConfigLocking.NoLostWrites` | pingap-config/src/manager.rs:481-608 | whenever the lock is free the directory equals running the calls one by one in lock order |
| `ConfigLocking.ConcurrentEditsCompose` | pingap-config/src/manager.rs:539-608 | from a canonical start, for edits whose per-item updates are named as the layout needs, the loaded map is then the initial one with all those edits applied in that order |
| `MigrationRace.RacedFile` | pingap-config/src/manager.rs:452-480 | a migration beside other calls, which loads before it takes the lock and retires the stale files right after its save: the files it writes are as if it had run alone, all other owned files as the calls left them |
| `MigrationRace.TypeRaceLosesAll` | pingap-config/src/manager.rs:452-509 | in the per-type layout everything stored between its load and its save is therefore lost |
| `MigrationRace.ItemRaceKeepsIff` | pingap-config/src/manager.rs:510-534 | in the per-item layout what was stored for an item in between survives if and only if the load had not seen the item or the migration stores the same |
| `MigrationRace.EveryEditCanBeLost` | pingap-config/src/manager.rs:452-480 | for every directory whose migration has something to do and reports no error, and for every call, there is an interleaving after which every file the migration writes is as if the call had not been made: per type that loses the whole call, per item what it stored for an item the load had seen |
| `DisjointUnion.MergeAnyOrder` | pingap-config/src/config_convert.rs:60-85 | inserting without overwriting gives the same outcome and the same map for every order of the parts |
| `DisjointUnion.CollectThenJoin` | pingap-config/src/config_convert.rs:107-227 | collecting keys in two accumulators and joining them at the end fails and succeeds like one union over all parts |
| `Assembly.ContributionAt` | pingap-config/src/config_convert.rs:128-227 | what a parsed block contributes to each entry: itself and everything nested in it, nothing else |
| `Assembly.AssembleErrIff` | pingap-config/src/config_convert.rs:128-227 | assembly fails if and only if two blocks contribute the same entry |
| `Assembly.AssembleAt` | pingap-config/src/config_convert.rs:128-227 | otherwise each entry is what the one block that speaks about it says |
| `Assembly.AssembleAnyOrder` | pingap-config/src/config_convert.rs:128-227 | permuting the blocks changes neither the outcome nor the configuration |
| `Assembly.MergeUnique` | pingap-config/src/config_convert.rs:76-85 | the loop joins two maps, and fails exactly when they share a key |
| `Assembly.AssembleToml` | pingap-config/src/config_convert.rs:128-227 | the loop with its two accumulators computes that union |
| `Hcl.FlatIffStable` | pingap-config/src/hcl.rs:373-395 | an attribute value reads back unchanged if and only if it holds no table with entries |
| `HclRoundTrip.ListRestoredIff` | pingap-config/src/hcl.rs:148-168 | a list rebuilt from the names of nested blocks is the original if and only if it names existing items only, each once |
| `HclRoundTrip.LocationBringsClaims` | pingap-config/src/hcl.rs:464-549 | a printed location reads back with exactly the upstream and plugins it was the first to claim |
| `HclRoundTrip.LocationKeptIff` | pingap-config/src/hcl.rs:91-174 | a location's own table survives if and only if it is flat and its plugin list, if embedded, is clean |
| `HclDocument.ServerReads` | pingap-config/src/hcl.rs:193-281 | a printed server reads back with the locations written in it, each under the claims in force, and everything they claimed |
| `HclDocument.ServerKeptIff` | pingap-config/src/hcl.rs:193-281 | a server's own table survives if and only if it is flat and its list of locations, if any, is clean and not empty |
| `HclDocument.PrintReadsIff` | pingap-config/src/hcl.rs:592-743 | a printed configuration is refused by the reader if and only if two servers list the same existing location |
| `HclDocument.PrintReadsAs` | pingap-config/src/hcl.rs:592-743 | otherwise what each single entry reads back as |
| `HclDocument.RoundTripIff` | pingap-config/src/hcl.rs:592-743 | printing and reading back gives the configuration again if and only if no location is shared and every entry is a table that is kept |
| `HclDocument.TidyRoundTrip` | pingap-config/src/hcl.rs:592-743 | flat tables, clean and not empty lists of locations, repeat-free plugin lists and no shared location are enough, in whatever order the entries are printed |
| `HclDocument.SharingIsRefused` | pingap-config/src/hcl.rs:657-676 | a configuration with a shared location whose printed form is refused |
| `HclDocument.NestedTableIsLost` | pingap-config/src/hcl.rs:393-393 | a configuration with a table in an entry that does not survive |
| `HclEmission.WrittenOnce` | pingap-config/src/hcl.rs:473-525 | with repeat-free plugin lists every upstream and every plugin is written exactly once, at whatever depth |
| `HclEmission.LocationWrittenPerListing` | pingap-config/src/hcl.rs:657-702 | every location is written once for each time a server lists it, and once if none does |
| `HclConvert.WriteLocation` | pingap-config/src/hcl.rs:464-549 | the step by step printer writes that block and updates the embedded sets to those claims |
| `HclConvert.WriteServers` | pingap-config/src/hcl.rs:634-680 | the loop over servers threads the claims and collects the embedded locations |
| `HclConvert.WriteItems` | pingap-config/src/hcl.rs:704-740 | the loop over a section writes exactly the tables not embedded elsewhere |
| `HclConvert.ConvertTomlToHcl` | pingap-config/src/hcl.rs:592-743 | the whole converter produces the specified document |
| `HclNesting.TopLocationIff` | pingap-config/src/hcl.rs:592-743 | a location is printed as a block of its own if and only if it is a table and no server lists it |
| `HclNesting.ServerHoldsIff` | pingap-config/src/hcl.rs:634-680 | it is printed inside a server if and only if it is a table and that server lists it |
| `HclNesting.TopUpstreamIff` | pingap-config/src/hcl.rs:464-549 | an upstream is printed as a block of its own if and only if it is a table and no location names it |
| `HclNesting.TopPlugins` | pingap-config/src/hcl.rs:464-549 | a plugin no location lists is printed as a block of its own; one listed by a location whose plugins all exist and are listed by no other location is not |
| `HclConvert.CompleteList` | pingap-config/src/hcl.rs:148-168 | the loop appends the nested names not listed yet; `Completion.ListCompletes` says what that list is |
| `Completion.ListCompletes` | pingap-config/src/hcl.rs:148-168 | for every table and every sequence of labels: the strings listed before are kept as a prefix, then comes each label not listed, once, in the order of the labels; without labels the field stays; all other fields stay |
| `HclConvert.ProcessLocationBlock` | pingap-config/src/hcl.rs:91-174 | the loop over nested blocks gives the specified parts; `HclReading.LocationReads` says what they are |
| `HclReading.LocationReads` | pingap-config/src/hcl.rs:91-174 | the location has the attributes of its block, its plugin list completed by the labels of its plugin blocks, and the upstream it names or else the first nested one; the upstreams and plugins it gives are exactly those its blocks label, each with the attributes of the last such block |
| `HclConvert.ProcessServerBlock` | pingap-config/src/hcl.rs:193-281 | likewise for servers, whose locations give their own contents; `HclReading.ServerReadsAs` says what they are |
| `HclReading.ServerReadsAs` | pingap-config/src/hcl.rs:193-281 | the server has the attributes of its block with its list of locations completed by the nested ones; the locations, upstreams, plugins and certificates it gives are exactly those its blocks, and the blocks of its locations, label, with their attributes |
| `HclConvert.ConvertHclToToml` | pingap-config/src/hcl.rs:320-370 | the converter gives the assembled configuration or fails as specified; `HclReading.DocumentReads` and `HclReading.RefusedIff` say which entries and when |
| `HclReading.RefusedIff` | pingap-config/src/hcl.rs:314-370 | reading fails if and only if a block has an unknown type, a block other than `basic` has no label, or two blocks of the document define the same entry |
| `HclReading.DocumentReads` | pingap-config/src/hcl.rs:320-370 | an entry is in the result if and only if some block of the document defines it, at the top or nested, and its value is what every such block defines it as |
| `KdlRoundTrip.ArgsKeptIff` | pingap-config/src/kdl.rs:575-597 | a list is written argument by argument if and only if it is a list of scalars; nested lists are flattened |
| `KdlRoundTrip.TableReads` | pingap-config/src/kdl.rs:170-215 | a printed table reads back field by field, no field appending to another |
| `KdlRoundTrip.ValueKeptIff` | pingap-config/src/kdl.rs:604-665 | exactly which values survive under which key, at every depth, relative to the fields that are always lists (`KdlWhole.OneValueListSurvives` and `KdlValues.NodeReads` write their eight names out) |
| `KdlWhole.OneValueListSurvives` | pingap-config/src/kdl.rs:25-37 | under each of the eight names, written out, a list of one scalar is printed and read back as it was |
| `KdlRoundTrip.FieldsKeptIff` | pingap-config/src/kdl.rs:113-215 | a table survives if and only if each of its values does under its key |
| `KdlDocument.LocationEntry` | pingap-config/src/kdl.rs:233-346 | a printed location cannot be read if and only if an upstream or plugin field was written as a block, and is read unchanged if and only if its fields are kept and none is called `plugin` |
| `KdlDocument.ServerEntry` | pingap-config/src/kdl.rs:363-481 | likewise for servers with their location, plugin and certificate fields |
| `KdlDocument.KdlReadsIff` | pingap-config/src/kdl.rs:514-559 | a printed document can be read if and only if no location or server holds a block where a name is expected |
| `KdlDocument.KdlReadsAs` | pingap-config/src/kdl.rs:514-559 | each entry reads back unchanged if and only if it is kept |
| `KdlDocument.KdlRoundTripIff` | pingap-config/src/kdl.rs:692-728 | the printer terminates normally and reading back gives the configuration again if and only if every entry is kept |
| `KdlDocument.SingletonListIsUnwrapped` | pingap-config/src/kdl.rs:152-156 | a one-element list under an ordinary key does not survive |
| `KdlDocument.ScalarNextToTableIsLost` | pingap-config/src/kdl.rs:604-665 | a list of a table and a number reads back changed |
| `KdlDocument.NestedListPanics` | pingap-config/src/kdl.rs:588-596 | a table in a list in a list makes the printer panic |
| `KdlConvert.WriteArgs` | pingap-config/src/kdl.rs:575-597 | the recursion renders the arguments, and panics exactly on a value with a table in it |
| `Escape.EscapesAre` | pingap-config/src/kdl.rs:563-571 | the escape of every character, written out |
| `KdlConvert.WriteProperty` | pingap-config/src/kdl.rs:604-665 | the recursive printer writes the specified node, and panics exactly on values that are not printable |
| `KdlConvert.ConvertTomlToKdl` | pingap-config/src/kdl.rs:692-728 | the whole converter produces the specified document or panics with it |
| `KdlConvert.NodeToTomlMap` | pingap-config/src/kdl.rs:170-215 | the loop over children with its append rule computes the specified table; `KdlValues.NodeReads` says what each field of it is |
| `KdlValues.NodeReads` | pingap-config/src/kdl.rs:170-215 | every field of the table of a node, from its inline properties and children: a list name always reads as a list, a repeated child gathers onto a list and otherwise replaces |
| `KdlValues.OneValueIsAList` | pingap-config/src/kdl.rs:25-37 | under each of the eight names one argument or one inline property reads as a list of that value |
| `KdlConvert.ProcessLocationNode` | pingap-config/src/kdl.rs:233-346 | the loop over children stops at the first error and gives the specified parts; `KdlEntries.LocationNodeReads` says what they are |
| `KdlEntries.LocationNodeReads` | pingap-config/src/kdl.rs:233-346 | a location node is read if and only if each of its nested definitions has a name; its fields, its completed plugin list and its upstream are those of its own children, and it gives exactly the nested upstreams and plugins, each with the fields of its last definition |
| `KdlConvert.ProcessServerNode` | pingap-config/src/kdl.rs:363-481 | likewise for servers; `KdlEntries.ServerNodeReads` says what they are |
| `KdlEntries.ServerNodeReads` | pingap-config/src/kdl.rs:363-481 | likewise for a server node and the locations, certificates, plugins and upstreams nested in it at any level |
| `KdlConvert.ConvertKdlToToml` | pingap-config/src/kdl.rs:514-559 | the converter gives the assembled configuration or fails as specified; `KdlWhole.DocumentReads` and `KdlWhole.RefusedIff` say which entries and when |
| `KdlWhole.RefusedIff` | pingap-config/src/kdl.rs:514-559 | reading fails if and only if some node is not acceptable (an unknown type, a definition without a name) or two nodes of the document define the same entry |
| `KdlWhole.DocumentReads` | pingap-config/src/kdl.rs:514-559 | an entry is in the result if and only if some node of the document defines it, and its value is what every such node defines it as |
| `KdlWhole.DecimalReads` | pingap-config/src/kdl.rs:87-104 | a name given as an integer is a decimal text that denotes that integer |
| `Escape.PassesAreOnePass` | pingap-config/src/kdl.rs:563-571 | the five whole-string replacements equal one pass over the characters |
| `Escape.LiteralReadsBack` | pingap-config/src/kdl.rs:563-571 | for every string, reading its literal ends at the closing quote and gives the string, whatever follows |
| `Escape.LiteralsDiffer` | pingap-config/src/hcl.rs:375-383 | different strings have different literals, none of which starts another |
| `CacheObject.RoundTripIff` | pingap-cache/src/http_cache.rs:77-133 | decoding an encoded object gives it back if and only if both metadata lengths fit in 32 bits |
| `CacheObject.AcceptedIsEncoded` | pingap-cache/src/http_cache.rs:77-111 | every accepted byte string is the encoding of what it decodes to |
| `CacheObject.Truncated` | pingap-cache/src/http_cache.rs:77-111 | a prefix of an encoding is refused if it cuts the header or the metadata, and otherwise decodes to the same metadata with a shorter body |
| `CacheObject.WeightOf` | pingap-cache/src/http_cache.rs:50-59 | a weight is between 1 and 65535 and, between one page and the maximum, the number of full pages with no truncation |
| `CacheObject.WeightMonotone` | pingap-cache/src/http_cache.rs:50-59 | a bigger object never weighs less |
| `CacheEviction.FindOldest` | pingap-cache/src/file.rs:263-316 | one pass finds the evictable file that comes first by access time, ties by walk order |
| `CacheEviction.EvictIsOldestPrefix` | pingap-cache/src/file.rs:243-316 | what is evicted is a prefix of that order, in that order |
| `CacheEviction.EvictMinimal` | pingap-cache/src/file.rs:243-259 | evicting fewer files would not have made room |
| `CacheEviction.EvictExact` | pingap-cache/src/file.rs:243-316 | eviction keeps the counter equal to the disk total and stops only with room, with nothing left, or at the cap |
| `FileCache.SharesFileIff` | pingap-cache/src/file.rs:318-337 | for keys that are plain names, two (namespace, key) pairs share a file if and only if the keys are equal and the namespaces lead to the same directory |
| `FileCache.NamespacesCollide` | pingap-cache/src/file.rs:318-337 | different namespaces that share every file: `.`, which `purge_namespace` accepts, and the empty one; `a//b` and `a/b` |
| `FileCache.PurgeReachesIff` | pingap-cache/src/file.rs:671-690 | which files an accepted namespace purges: for `.` every file that is not being written; otherwise those with the namespace as their first directory, nested namespaces and level directories of the root included |
| `FileCache.RoomIsMinimal` | pingap-cache/src/file.rs:243-316 | a write evicts the shortest prefix that makes room, at most 64 files |
| `FileCache.PutShortfall` | pingap-cache/src/file.rs:503-536 | by exactly how many bytes the counter falls short of the disk total after a write |
| `FileCache.PutExactIff` | pingap-cache/src/file.rs:454-545 | a write keeps the counter exact if and only if it does not evict a non-empty file it replaces while other bytes remain |
| `FileCache.PutWithinBudget` | pingap-cache/src/file.rs:503-536 | if room was made without evicting the replaced file, the disk total is within the budget afterwards |
| `FileCache.GetExact` | pingap-cache/src/file.rs:364-442 | reading keeps the counter exact, also when it removes a corrupt file |
| `FileCache.RemoveExact` | pingap-cache/src/file.rs:555-586 | removing keeps the counter exact |
| `FileCache.DeletedExact` | pingap-cache/src/file.rs:605-754 | clearing and purging keep the counter exact |
| `FileCache.CountCanFallShort` | pingap-cache/src/file.rs:503-536 | a write after which the counter falls short and the budget is exceeded |
| `CacheRuns.PutCoherentIff` | pingap-cache/src/file.rs:454-545 | a write keeps both layers free of outdated values if and only if it leaves no older copy in memory (heavy object) or on disk (over quota) |
| `CacheRuns.ServesLastPut` | pingap-cache/src/file.rs:364-586 | after every run of such operations a read is a miss or the last value put and not removed, whatever memory forgot |
| `CacheRuns.LightRunIsOrderly` | pingap-cache/src/file.rs:460-488 | runs whose objects are below the weight limit, with metadata that fits in 32 bits, whose writes are within quota and whose keys each belong to one namespace are such runs |
| `CacheRuns.LightRunServesLastPut` | pingap-cache/src/file.rs:364-586 | so from an empty cache every such run, with one namespace per key, serves nothing or the last value put and not removed |
| `CacheRuns.HeavyWriteServesOld` | pingap-cache/src/file.rs:427-469 | a run in which a heavy write leaves the old value to be served |
| `CacheRuns.OverQuotaServesOld` | pingap-cache/src/file.rs:454-488 | a run in which a write over quota is forgotten by memory and the old value is served again |
| `CacheRuns.OtherNamespaceServed` | pingap-cache/src/file.rs:364-380 | a write in one namespace is served to every other namespace under the same key if it reaches memory, and otherwise changes nothing there but by eviction |
| `FileCache.RemovesWhatWasPutIff` | pingap-cache/src/file.rs:555-586 | a removal looks for the file where a write under the same namespace bytes put it if and only if the bytes are text: writes and reads take other bytes for the empty namespace, removals put in replacement characters |
| `CacheRuns.UndecodableSurvivesRemove` | pingap-cache/src/file.rs:555-586 | what was written under namespace bytes that are no text is served after its removal |
| `CacheRuns.RunExact` | pingap-cache/src/file.rs:243-754 | over every run whose writes do not evict what they replace the counter is the disk total |
| `CacheRuns.RunBacked` | pingap-cache/src/file.rs:364-754 | while nothing is evicted, cleared or written over quota, everything in memory has its file |
| `CacheRuns.PurgeServesIff` | pingap-cache/src/file.rs:671-754 | after a purge an entry anywhere under the purged directory is still served if and only if memory holds its key and no purged file had that name |
| `CacheRuns.EvictedStillServed` | pingap-cache/src/file.rs:263-316 | a run of two writes and a purge after which the evicted object is still served |
| `CacheRuns.PurgeIsComplete` | pingap-cache/src/file.rs:671-754 | after a run that kept its files, a purge leaves nothing of the namespace to be served |
| `CacheStorage.Cache.constructor` | pingap-cache/src/file.rs:759-767 | opening a directory measures it exactly |
| `CacheStorage.Cache.EvictOldestFile` | pingap-cache/src/file.rs:263-316 | removes that oldest file and subtracts its length, wrapping around |
| `CacheStorage.Cache.EnsureDiskSpace` | pingap-cache/src/file.rs:243-259 | the bounded loop performs the specified eviction |
| `CacheStorage.Cache.Get` | pingap-cache/src/file.rs:364-442 | the answer and the new contents of both layers |
| `CacheStorage.Cache.Put` | pingap-cache/src/file.rs:454-545 | the new contents of both layers and the counter |
| `CacheStorage.Cache.Remove` | pingap-cache/src/file.rs:555-586 | the new contents of both layers and the counter |
| `CacheStorage.Cache.Clear` | pingap-cache/src/file.rs:605-659 | for every disk: the files left are exactly those accessed later than the time, unchanged, the memory layer is untouched, and the number reported is the number of files gone |
| `CacheEffects.ClearKeeps` | pingap-cache/src/file.rs:605-659 | the same of the specified state, file by file |
| `CacheEffects.AnswerIs` | pingap-cache/src/file.rs:364-442 | what a read answers: the object in memory, else the object whose encoding the file holds; nothing exactly when memory has none and the quota is used up, there is no file, or its bytes encode no object |
| `CacheEffects.GetEffects` | pingap-cache/src/file.rs:364-442 | a read removes its file exactly when it tried to decode it and could not, stamps it when it did, fills memory with the answer, and touches no other file or memory entry |
| `CacheEffects.PutIsServed` | pingap-cache/src/file.rs:454-545 | what was written is answered next, from memory if it goes there, otherwise from disk unless a quota is used up or memory holds the key |
| `CacheEffects.PutEffects` | pingap-cache/src/file.rs:454-545 | a write over quota leaves the disk alone; any other stores the encoding with its time; other files are unchanged or evicted, and none is evicted without a size limit |
| `CacheEffects.EvictsLeastRecent` | pingap-cache/src/file.rs:243-316 | a file evicted for room is not a temporary one and was accessed no later than any file left that is not temporary |
| `CacheEffects.OldestIsFirst` | pingap-cache/src/file.rs:263-316 | among files accessed equally long ago the first of the walk is evicted first |
| `CacheEffects.EvictsUntilRoom` | pingap-cache/src/file.rs:243-260 | at most 64 files are evicted; fewer only once the object fits or only temporary files are left |
| `CacheEffects.RemoveEffects` | pingap-cache/src/file.rs:555-586 | a removed object is answered by neither layer; nothing else changes |
| `CacheEffects.PurgeEffects` | pingap-cache/src/file.rs:671-754 | the files a purge deletes are exactly those whose first directory is the namespace, or all for `.`, except temporary ones, and memory drops their keys |
| `CacheEffects.PurgeTakes` | pingap-cache/src/file.rs:671-690 | on characters which namespaces a purge takes: not empty, no slash, no backslash, no two dots in a row |
| `FileCache.TwoLevelPath` | pingap-cache/src/file.rs:318-337 | where a key lies below two levels: the directories are cut from its end, without the last character |
| `CacheEffects.ObjectWeight` | pingap-cache/src/http_cache.rs:50-59 | the weight from the three lengths: 1 up to 4096 bytes, the number of whole pages below 40 MiB, 65535 from there |
| `CacheEffects.EncodingLayout` | pingap-cache/src/http_cache.rs:117-133 | the bytes of an object: both metadata lengths in four bytes each, most significant first, then the metadata and the body |
| `CacheStorage.Cache.PurgeNamespace` | pingap-cache/src/file.rs:671-754 | the loop removes exactly the files under the directory the namespace leads to that are not being written, and their names from memory; bad namespaces are refused |
| `PolicyReload.InvAlways` | pingap-core/src/lib.rs:21-57 | in every state of every interleaving the stage of the lock holder determines the parity of the generation and which snapshots are new |
| `PolicyReload.OddMeansHeld` | pingap-core/src/lib.rs:34-57 | a free lock means an even generation, and an odd one that exactly one reloader is publishing |
| `PolicyReload.HostsNeverBehind` | src/locations.rs:102-115 | at every moment the abuse hosts are at least as new as the registered hosts and those at least as new as the locations; an even generation means all three are equal |
| `PolicyReload.AcceptedReadIsOneReload` | pingap-proxy/src/server.rs:506-556 | whatever locations and host sets a reader that accepts has looked at between its checks, in any order and any number of times, came from one and the same reload published before it began; nothing follows for the server's route, which is published outside the generation, nor for the native host list, which is read later |
| `RouteReload.AcceptedPairIff` | pingap-proxy/src/server.rs:506-556 | of an accepted read with its route: all locations are of one reload, and the route is of the same one if and only if the last routes published by then were that reload's |
| `RouteReload.NeverNewerIff` | src/process/auto_restart.rs:231-330 | over every run the route is never newer than the locations if and only if no routes are published ahead of the locations, as a reload whose locations failed does |
| `RouteReload.OrderlyAgreeIff` | src/process/auto_restart.rs:231-330 | while reloads do not overlap, do not fail and publish their routes, the route is never newer, and older exactly from the moment a reload stores its locations until it publishes its routes |
| `RouteReload.OrderlyReadMixesIff` | pingap-proxy/src/server.rs:506-556 | so an accepted read mixes two reloads if and only if it took its route in that window |
| `RouteReload.EveryReloadCanBeMixed` | src/server_locations.rs:58-99 | from every reachable state in which a reload can start there is a run with an accepted read of its locations under the old routes |
| `RouteReload.EveryFailureCanBeAhead` | src/process/auto_restart.rs:231-330 | and one in which the locations fail, the routes are published all the same, and an accepted read has them with the old locations |
| `RouteReload.OverlapLeavesOldRoutes` | src/process/auto_restart.rs:231-330 | two overlapping reloads that end, with nothing left to publish, on new locations and old routes |
| `PolicyReload.RouteFirst` | crates/pingap-behaviour/src/plugin.rs:291-320 | a reader that takes the route first never pairs it with an older host set, accepted or not: this is what holds of the native host list, which is read after the last generation test |
| `PolicyReload.HostsFirstCanBeBehind` | src/locations.rs:102-115 | an interleaving in which hosts read first are older than the route read after them |
| `PolicyPublisher.Publisher.TryInitLocations` | src/locations.rs:63-117 | too many hosts are refused before anything happens, a location that cannot be built publishes nothing, and otherwise all three snapshots are those of the new settings |
| `PolicyPublisher.Publisher.Build` | src/locations.rs:87-101 | the loop reuses exactly the locations whose settings did not change and stops at the first that cannot be built |
| `PolicyPublisher.ReloadIsIdleIff` | src/locations.rs:87-101 | loading the same settings again rebuilds nothing if and only if no location has an empty name, and otherwise only that one |
| `Routing.GetWeight` | pingap-config/src/common.rs:740-773 | the accumulating computation gives the specified weight; `Routing.SetOrHost`, `Routing.LongerPathWeighsMore`, `Routing.LongPathsTie` and `Routing.PathWeights` say what it is |
| `Routing.SetOrHost` | pingap-config/src/common.rs:740-773 | a set weight is the weight; a host list without regular expressions adds 128 |
| `Routing.LongerPathWeighsMore` | pingap-config/src/common.rs:740-773 | of two paths of one kind up to 64 bytes the longer one weighs more by the difference of their lengths |
| `Routing.LongPathsTie` | pingap-config/src/common.rs:740-773 | beyond 64 bytes the length does not count |
| `Routing.PathWeights` | pingap-config/src/common.rs:740-773 | one weight of each kind of path and host as a number |
| `Routing.BandsApartIff` | pingap-config/src/common.rs:740-773 | exact paths outweigh prefixes and prefixes outweigh regular expressions for all paths and hosts if and only if regular expression hosts have at most 193 bytes |
| `Routing.LongHostTies` | pingap-config/src/common.rs:740-773 | with 194 bytes a regular expression path ties with a prefix |
| `Routing.SortSorts` | src/server_locations.rs:62-96 | for any weights: the order is a permutation of the list, descending by weight, and keeps the listed order among equal weights |
| `Routing.RoutedToHeaviest` | src/server_locations.rs:62-96 | for any weights: a request goes to the matching location of the greatest weight and, among those, to the one listed first; to none exactly when none matches |
| `Routing.HeavierFirst` | src/server_locations.rs:62-96 | from the configured locations: a location listed stands before every configured one that weighs less, an unknown name counts as weight 0 |
| `Routing.EqualKeepOrder` | src/server_locations.rs:62-96 | from the configured locations: those of equal weight keep the order of the list |
| `Routing.RoutedLocation` | src/server_locations.rs:62-96 | from the configured locations: the one a request goes to is listed, matches, outweighs every other match, and is listed first among equals |
| `Routing.Provider.TryInitServerLocations` | src/server_locations.rs:58-99 | the loops publish, for every server that has a list, that list sorted by the weights of the configured locations, and report exactly the servers whose list changed |

## Left out

- HCL, KDL and TOML lexing and text layout: heredocs, number formatting, `${` templates, quoting of keys and labels, floats and date-times. The model starts from trees and documents.
- Directories and single files in HCL or KDL on the manager's write path; the storage holds TOML documents only.
- The etcd storage, file history and the environment variable expansion of the file storage.
- Torn file writes, leftover temporary files and several processes sharing a directory: each file write, rename and removal is one step, and none of them fails.
- The memory layer's admission policy: it is a map that may forget any entry between operations.
- Concurrency inside the file cache: operations of a run follow one another, and the number of others in flight is a parameter that only decides the quotas. The walk order and the access times the file system reports are parameters; the walk order is fixed during one write.
- Matching of hosts, paths and conditions in a location is an arbitrary set of matching names; the host index that narrows the candidates is not modelled.
- Normalisation of host names: locations come with normalised host names.
- `PolicyReload.AcceptedReadIsOneReload`: needs fewer than 2^64 increments of the generation between a reader's two samples, because the generation is a 64-bit counter.
- `FileCache.PutShortfall`: needs the disk total plus the new object to stay below 2^64 bytes, as does every lemma about the exact counter.
- `Migration.MigrateSaves`: for migrations that report no error; one that stops at a refused name has written the files before it (`WholeSave.SaveWrites`) and retired nothing (`Migration.FailedMigrationRetiresNothing`).
- `SteadyState.EverAfterIff`: ranges over admissible runs. In the per-item layout a whole save that is not storable is excluded (`AnySave.SaveStoresIff` says what it stores), and so is an update of an item without a name whose fields do harm, because it ends readability (`SteadyState.UpdateReadableIff`, `SteadyState.UnnamedUpdateBreaks`).
- `SteadyState.ReadsAgreeEverAfterIff`: likewise.
- `ConfigRefinement.RunsRefine`: for runs without per-item updates that are named otherwise than the layout needs; `ConfigRefinement.EntryOpRefinesIff` shows that one of them already stores something else.
- `ConfigRefinement.LayoutsAgree`: likewise.
- `ConfigLocking.ConcurrentEditsCompose`: likewise.
- `MigrationRace.RacedFile`: the retirements follow the migration's save with no other call in between.
- Cache namespaces that are absolute paths or contain `..` leave the cache directory and are not followed; cache keys are digests, plain names.
- `ConfigManager.Manager.LoadAll`: files open sections by headers and no entry is split over files. The loader concatenates texts, so a subtable of an entry in another file, or a key above the first header of a file, would join what stands before it.
- A basic section that is not a table.
- Reloads that leave the locations alone publish routes for the locations of some earlier reload; which one is a parameter.
- `References.RefusedIffDangling`: references that an included text itself brings in are not followed.
- `Routing.LongerPathWeighsMore`: for host lists of at most 60000 bytes, because the weight is a 16-bit number.
- `HclNesting.TopPlugins`: one condition for each side; a plugin listed by several locations is printed where the order of the table decides.
- `HclEmission.WrittenOnce`: needs repeat-free plugin lists; a name repeated in an embedded list is written as often as it is repeated.
- The control plane, firewall, bot and behaviour crates, certificates, notifications, metrics and the command line.
