# FReD: replication, storage and naming

FReD replicates keygroups (small key-value maps) over nodes. A name service, etcd behind a local
cache, records who replicates what, who may do what, and which updates a node has missed. Every
node keeps its copies of all keygroups in one ordered key space. This project models that logic
and proves properties of whole runs of it.

## How it is built

* **Texts** (`fields.dfy`, `order.dfy`, `numerals.dfy`): keys are fields glued with `|`, compared
  byte by byte; counters and expiries are decimal numerals.
* **Local store** (`keys.dfy`, `flatview.dfy`, `badger.dfy`, `storeservice.dfy`): the class
  `Badger.Storage` works on one flat map and a map of counters, as the source does. Its
  specification `LocalStore.Local` is what one keygroup looks like on one node. Every method is
  proved to act on that record alone and to leave every other keygroup as it was.
* **Name service** (`nasekeys.dfy`, `nameview.dfy`, `namecache.dfy`, `nameservice.dfy`,
  `authservice.dfy`): the class `NameServices.NameService` reads and writes flat keys through a
  cache. Its specification is `Records.Record`, a user's set of methods, and the reported ids.
  `history.dfy` is about histories of membership, `watches.dfy` about the cache when other
  clients write too.
* **Replication** (`protocol.dfy`, `cluster.dfy`): the handlers are methods of `Clusters.Cluster`
  with the source's order of steps, each proved equal to a function of `Protocol` on the slice of
  the state that concerns the keygroup, for whatever links and trigger hosts fail.
* **Whole runs**: `convergence.dfy`, `addreplica.dfy` and `runs.dfy` (replicas agree, write-once
  logs), `divergence.dfy` (missed updates and recovery), `membership.dfy` (no keygroup without a
  member, ids never reused), `triggerlog.dfy` (trigger logs), `wholeroles.dfy` (permissions).
  `effects.dfy` says of each request what it answers and changes, node by node.
  `naming.dfy` ties the flat name service to the protocol's state. `counterexamples.dfy` holds
  concrete inputs for what is not true without a condition.

`Local`, `Record` and sets of methods are shared: the flat layers refine them and the protocol is
stated over them.

Where the code and its comments differ, the model follows the code: a new keygroup forgets the
members of the deleted one, but their expiries stay; a deletion that a node missed is not made up
for when it starts again; the watch behind a cached answer is registered in the background, so a
change in between is lost.

## Model

| member | source | states |
|---|---|---|
| Fields.SplitJoin | pkg/badgerdb/badgerdb.go:24-67 | splitting a joined key gives its fields back |
| Fields.JoinSplit | pkg/badgerdb/badgerdb.go:46-67 | any text is the join of its separator-free pieces |
| Fields.PrefixSplit | pkg/badgerdb/badgerdb.go:29-43 | a joined prefix with a separator starts a key if and only if its fields are the key's first fields |
| Fields.SplitPrefixed | pkg/etcdnase/auth.go:32 | whatever follows a prefix, the prefix's fields are read first |
| Fields.NameCharsAre | pkg/fred/validation.go:9 | names and ids are made of digits and letters, given by their codes, and are not empty |
| Order.Total | pkg/badgerdb/badgerdb.go:161-197 | keys are totally ordered byte by byte |
| Order.PrefixOrder | pkg/badgerdb/badgerdb.go:161-197 | keys with a common prefix are ordered as their suffixes |
| Order.PrefixContiguous | pkg/badgerdb/badgerdb.go:161-197 | keys that share a prefix are contiguous in the order |
| Order.SortedUnique | pkg/badgerdb/badgerdb.go:161-197 | the sorted enumeration of a set of keys is the only strictly sorted one |
| Order.WindowIsExact | pkg/badgerdb/badgerdb.go:172-176 | an iterator that seeks and stops at the first key without the prefix meets exactly the keys with the prefix from there on |
| Numerals.AtoiOfItoa | pkg/etcdnase/helper.go:150-157 | reading a written number gives it back |
| Numerals.FormatIsCanonical | pkg/badgerdb/badgerdb.go:334-376 | numerals are written without leading zeros |
| Numerals.AtoiOfDigits | pkg/badgerdb/badgerdb.go:268-279 | digits are read as their value, also with leading zeros |
| Numerals.AtoiOfSigned | pkg/etcdnase/helper.go:150-157 | a sign in front of digits is read |
| Numerals.OnlyNumeralsAreRead | pkg/badgerdb/badgerdb.go:268-279 | nothing but digits with an optional sign is read |
| Numerals.FormatInjective | pkg/badgerdb/badgerdb.go:334-376 | different counters give different ids |
| Numerals.AlnumIsUnsigned | pkg/badgerdb/badgerdb.go:268-279 | what is read from an alphanumeric id is not negative |
| Keys.KindOfEncode | pkg/badgerdb/badgerdb.go:46-67 | every kind of key is read back to what it was made from |
| Keys.KeysAreDistinct | pkg/badgerdb/badgerdb.go:24-43 | items, markers, triggers and counters never share a key |
| Keys.ItemPrefixIsExact | pkg/badgerdb/badgerdb.go:29-31 | the item prefix of a keygroup starts its item keys and no other key |
| Keys.TriggerPrefixIsExact | pkg/badgerdb/badgerdb.go:609-646 | the trigger prefix of a keygroup starts its trigger keys and no other key |
| Keys.KeysRead | pkg/badgerdb/badgerdb.go:24-43 | the printed forms of the four kinds of key |
| FlatView.SetStored | pkg/badgerdb/badgerdb.go:282-304 | writing one key changes that part of that keygroup's record and nothing of any other |
| FlatView.RemoveStored | pkg/badgerdb/badgerdb.go:312-331 | removing one key changes that part of that keygroup's record and nothing of any other |
| FlatView.DropStored | pkg/badgerdb/badgerdb.go:312-331 | removing the one key of an item, a marker or a trigger removes that alone; counters and other keygroups stay |
| FlatView.WipeItems | pkg/badgerdb/badgerdb.go:486-516 | deleting every key under a keygroup's item prefix empties its items and changes nothing else |
| FlatView.WipeTriggers | pkg/badgerdb/badgerdb.go:523-552 | deleting every key under a keygroup's trigger prefix empties its triggers and changes nothing else |
| Badger.Storage.ViewReads | pkg/badgerdb/badgerdb.go:24-43 | presence, items and triggers of a keygroup are what is stored under the printed keys |
| Badger.Storage.Read | pkg/badgerdb/badgerdb.go:122-158 | gives the stored value, or fails if there is none |
| Badger.Storage.Exists | pkg/badgerdb/badgerdb.go:402-418 | true exactly for stored items |
| Badger.Storage.ExistsKeygroup | pkg/badgerdb/badgerdb.go:421-437 | true exactly for present keygroups |
| Badger.Storage.ReadSome | pkg/badgerdb/badgerdb.go:161-197 | gives the smallest ids from the start id on, as many as asked for, with their values |
| Badger.Storage.ReadAll | pkg/badgerdb/badgerdb.go:200-233 | gives exactly the keygroup's items |
| Badger.Storage.IDs | pkg/badgerdb/badgerdb.go:236-263 | gives exactly the keygroup's ids, in order |
| Badger.Storage.IncrementSequence | pkg/badgerdb/badgerdb.go:378-399 | hands out the next number of the keygroup's counter |
| Badger.Storage.Update | pkg/badgerdb/badgerdb.go:266-309 | stores the item; an append first draws the counter until it is past the id, and terminates |
| Badger.Storage.Delete | pkg/badgerdb/badgerdb.go:312-331 | removes the item and nothing else |
| Badger.Storage.Append | pkg/badgerdb/badgerdb.go:334-376 | stores the value under the next number and hands that id out |
| Badger.Storage.CreateKeygroup | pkg/badgerdb/badgerdb.go:440-461 | makes the keygroup present |
| Badger.Storage.DeleteKeygroup | pkg/badgerdb/badgerdb.go:464-570 | removes marker, items and triggers of this keygroup only, and keeps its counter |
| Badger.Storage.AddKeygroupTrigger | pkg/badgerdb/badgerdb.go:573-589 | registers the trigger and nothing else |
| Badger.Storage.DeleteKeygroupTrigger | pkg/badgerdb/badgerdb.go:592-606 | removes the trigger and nothing else |
| Badger.Storage.GetKeygroupTrigger | pkg/badgerdb/badgerdb.go:609-646 | gives exactly the keygroup's triggers |
| Badger.Storage.Release | pkg/badgerdb/badgerdb.go:556-568 | reserved numbers that were not handed out go back, and the next id stays the same |
| StoreServices.StoreService.Scan | pkg/fred/storeservice.go:74-112 | succeeds exactly for an existing start id of a present keygroup, and lists the range |
| StoreServices.ScanIsRange | pkg/fred/storeservice.go:74-112 | the range has the asked-for size or all that is available, starts with the start id, and everything left out is larger |
| StoreServices.StoreService.ReadAll | pkg/fred/storeservice.go:115-146 | lists exactly the items of a present keygroup |
| StoreServices.StoreService.Update | pkg/fred/storeservice.go:154-172 | refuses invalid items and absent keygroups, and otherwise applies the change |
| StoreServices.StoreService.Delete | pkg/fred/storeservice.go:175-193 | refuses invalid ids and absent keygroups, and otherwise removes the item |
| StoreServices.StoreService.Append | pkg/fred/storeservice.go:196-210 | appends under the id the counter gives |
| StoreServices.StoreService.CreateKeygroup | pkg/fred/storeservice.go:215-233 | refuses a keygroup that is present, and otherwise opens it with its old counter |
| StoreServices.StoreService.DeleteKeygroup | pkg/fred/storeservice.go:236-254 | refuses an absent keygroup, and otherwise drops everything but the counter |
| LocalStore.AppendNewIsAppend | pkg/badgerdb/badgerdb.go:334-376 | an append does at its coordinator what the relayed append does at a peer |
| LocalStore.LoadItems | pkg/fred/replicationservice.go:387-406 | copying a set of items in any order adds exactly those items |
| LocalStore.LoadCounter | pkg/fred/replicationservice.go:387-406 | copying a log leaves the counter above every copied id |
| LocalStore.CatchUpBound | pkg/badgerdb/badgerdb.go:268-279 | copying k ids with maximum M into a fresh counter leaves the next id between M+1 and M+k, in any order |
| Sources.GetNodeWithBiggerExpiry | pkg/etcdnase/failednodes.go:76-93 | the loop ends with a node that `MayChoose` allows, whatever the order of the map |
| Sources.WalkMayChoose | pkg/etcdnase/failednodes.go:76-93 | every iteration order ends with an allowed choice |
| Sources.EveryChoiceIsMade | pkg/etcdnase/failednodes.go:76-93 | every allowed choice, of a node or of none, is made in some order |
| Sources.BestSourceExactly | pkg/etcdnase/failednodes.go:58-100 | every choice has maximal expiry if and only if some expiry is readable and none above MaxInt32 meets an unlimited one |
| Sources.BestSource | pkg/etcdnase/failednodes.go:58-100 | with expiries from 0 to MaxInt32 and a member to choose, the choice is a member with maximal expiry |
| Sources.UnlimitedWins | pkg/etcdnase/failednodes.go:76-93 | with expiries from 0 to 2147483647, a member whose items never expire is chosen if there is one, else one with the largest expiry |
| NameKeys.KeyIsJoin | pkg/etcdnase/nameservice.go:15-28 | each key format is the join of its fields |
| NameKeys.KeysAreDistinct | pkg/etcdnase/nameservice.go:15-28 | no two entries of the name service share a key |
| NameKeys.NodePrefixIsExact | pkg/etcdnase/nameservice.go:16 | reading a keygroup's nodes meets its node entries and nothing else |
| NameKeys.KeygroupPrefixIsExact | pkg/etcdnase/nameservice.go:16-19 | what is about a keygroup, and nothing about another, lies under its prefix |
| NameKeys.UserPrefixIsExact | pkg/etcdnase/nameservice.go:22 | reading a user's permissions on a keygroup meets those and nothing else |
| NameKeys.FailedPrefixIsExact | pkg/etcdnase/nameservice.go:23-24 | reading what a node has missed meets that node's reports and nothing else |
| NameKeys.DecodedFields | pkg/etcdnase/helper.go:252-255 | node names, methods and missed keygroups are read back from keys; of a missed id, the piece before its first separator |
| NameKeys.ExactKeysEndInText | pkg/etcdnase/helper.go:81-90 | keys read one by one never end in the separator, so they are never prefixes |
| NameView.KeysRead | pkg/etcdnase/nameservice.go:15-28 | the printed forms of the key formats |
| NameView.ReadingsAre | pkg/etcdnase/keygroups.go:42-57 | status, mutability, members, expiries, permissions, reports and addresses are what is stored under the printed keys, with the texts the source writes |
| NameView.PutStatus | pkg/etcdnase/helper.go:222-224 | writing the status changes whether the keygroup exists and nothing else of its record |
| NameView.PutMutable | pkg/etcdnase/helper.go:227-237 | writing mutability changes that part of the record alone |
| NameView.PutExpiry | pkg/etcdnase/helper.go:240-243 | writing an expiry changes the expiry of one node |
| NameView.PutNode | pkg/etcdnase/helper.go:209-219 | writing a node's status adds or removes one member |
| NameView.ClearNodes | pkg/etcdnase/keygroups.go:104-111 | deleting the node prefix empties the members and nothing else of any record |
| NameView.ChangesOnlyAbout | pkg/etcdnase/nameservice.go:15-28 | writes under one keygroup's prefix leave other keygroups, permissions, reports and addresses as they were |
| NameView.ChangesOnlyPerms | pkg/etcdnase/nameservice.go:22 | writes under one user's prefix leave other users, records, reports and addresses as they were |
| NameView.FailedWrites | pkg/etcdnase/failednodes.go:13-54 | writes under one node's report prefix leave other nodes' reports and everything else as they were |
| NameCache.CachedKinds | pkg/etcdnase/helper.go:27-32 | a cached entry under an exact key is a text and one under a prefix a map, so the type assertions hold |
| NameCache.DroppingSuffices | pkg/etcdnase/helper.go:160-206 | after a write, dropping the key and the prefix it is listed under leaves no wrong answer in the cache |
| NameCache.ClearingDisturbs | pkg/etcdnase/keygroups.go:104-113 | the prefix delete that bypasses the cache makes only the list of nodes wrong |
| NameServices.NameService.Evict | pkg/etcdnase/nameservice.go:67-73 | the cache may drop any answer at any time, and the rest of it stays right |
| NameServices.NameService.GetPrefix | pkg/etcdnase/helper.go:16-78 | a cached or direct read of members or permissions gives what etcd holds |
| NameServices.NameService.GetExact | pkg/etcdnase/helper.go:81-136 | a cached or direct read of one key gives what etcd holds |
| NameServices.NameService.Invalidate | pkg/etcdnase/helper.go:165-172 | drops the key and the prefixes |
| NameServices.NameService.Put | pkg/etcdnase/helper.go:160-181 | writes the key and leaves the cache right, if the key's list is among the prefixes |
| NameServices.NameService.Delete | pkg/etcdnase/helper.go:184-206 | removes the key and leaves the cache right |
| NameServices.NameService.ExistsKeygroup | pkg/etcdnase/keygroups.go:42-48 | true exactly if the record says created |
| NameServices.NameService.IsMutable | pkg/etcdnase/keygroups.go:51-57 | gives the record's mutability |
| NameServices.NameService.GetKeygroupExpiry | pkg/etcdnase/helper.go:150-157 | gives the record's expiry, 0 if none is stored, and never fails |
| NameServices.NameService.GetExpiry | pkg/etcdnase/keygroups.go:60-66 | gives this node's expiry |
| NameServices.NameService.CreateKeygroup | pkg/etcdnase/keygroups.go:69-113 | fails for an existing keygroup, else founds it with the given mutability and expiry and this node as only member; cache right, all else unchanged |
| NameServices.NameService.DeleteKeygroup | pkg/etcdnase/keygroups.go:34-39 | only marks the record as deleted |
| NameServices.NameService.JoinNodeIntoKeygroup | pkg/etcdnase/keygroups.go:150-175 | succeeds exactly for an existing keygroup and a known node, and adds the member with its expiry |
| NameServices.NameService.ExitOtherNodeFromKeygroup | pkg/etcdnase/keygroups.go:14-31 | succeeds exactly for an existing keygroup and a known node, and removes the member |
| NameServices.NameService.GetKeygroupMembers | pkg/etcdnase/keygroups.go:117-147 | gives exactly the members with their expiries, with or without the asking node, and never fails |
| NameServices.NameService.GetNodeWithBiggerExpiry | pkg/etcdnase/failednodes.go:58-100 | chooses among the other members as the walk over the map does, and gives the stored address of the choice, or neither node nor address |
| NameServices.NameService.GetNodeAddress | pkg/etcdnase/nodes.go:13-26 | gives the stored address, or fails if it is missing or empty |
| NameServices.NameService.AddUserPermissions | pkg/etcdnase/auth.go:17-20 | adds one method for one user on one keygroup, nothing else |
| NameServices.NameService.RevokeUserPermissions | pkg/etcdnase/auth.go:11-14 | removes one method of one user on one keygroup, nothing else |
| NameServices.NameService.GetUserPermissions | pkg/etcdnase/auth.go:23-37 | gives exactly the user's methods on the keygroup |
| NameServices.NameService.RegisterSelf | pkg/etcdnase/nameservice.go:90-102 | stores the two addresses of this node under their keys and changes no other address, record, permission or report |
| NameServices.NameService.ReportFailedNode | pkg/etcdnase/failednodes.go:13-25 | adds one report and changes nothing else |
| NameServices.NameService.RequestNodeStatus | pkg/etcdnase/failednodes.go:28-54 | an uncached drain gives the reported pairs, clears them, and leaves other nodes' reports unchanged |
| NameServices.DrainIsExact | pkg/etcdnase/failednodes.go:39-42 | the drain gives back exactly what was reported if and only if no reported id contains a separator |
| Histories.CreatedIsLive | pkg/etcdnase/keygroups.go:34-48 | a keygroup exists if and only if it was created and not deleted since |
| Histories.MembersAreLatest | pkg/etcdnase/keygroups.go:14-175 | over any history, the members are the nodes whose latest event is founding or joining, with the expiry of that event |
| Histories.MutabilityIsLatest | pkg/etcdnase/keygroups.go:51-83 | over any history, a keygroup is as mutable as the latest event that founded it said |
| Histories.Perform | pkg/etcdnase/keygroups.go:14-175 | whichever nodes carry a history out, the flat keys end with that history's record and other keygroups keep theirs |
| Histories.PerformThroughCache | pkg/etcdnase/helper.go:160-206 | a single client may keep its cache over its whole history: the flat keys end with that history's record |
| Histories.RecordShowsLatest | pkg/etcdnase/keygroups.go:117-147 | the members of a history's record are exactly the nodes whose latest event is founding or joining, each with that event's expiry |
| Histories.MembersAfter | pkg/etcdnase/keygroups.go:117-147 | after any history by any nodes, GetKeygroupMembers gives exactly those nodes with those expiries |
| Histories.MutableAfter | pkg/etcdnase/keygroups.go:51-57 | after any history by any nodes, IsMutable gives the flag of the latest founding |
| Watches.StepStaysWatched | pkg/etcdnase/helper.go:54-76 | every step keeps: a cached answer has the watch of its read, and a registered watch without an event sees what it first saw |
| Watches.RunStaysWatched | pkg/etcdnase/helper.go:16-136 | the same for every interleaving |
| Watches.RunStaysTraced | pkg/etcdnase/helper.go:54-76 | over every interleaving, a watch holds what was read at the step that started it and at the step that registered it |
| Watches.SettledExactly | pkg/etcdnase/helper.go:54-76 | once all is delivered, a cached answer is right if and only if the read that filled the cache saw what a read at the registration of its watch would have seen |
| Watches.EventsExactly | pkg/etcdnase/helper.go:54-76 | over every run, a watch has an undelivered event if and only if it is registered and a key it covers has changed since |
| Watches.DirectIsRead | pkg/etcdnase/helper.go:41-53 | what is cached for a key or a prefix is what the read of it gives |
| Watches.AnswersStay | pkg/etcdnase/helper.go:26-33 | a cached answer is served until it is dropped or an event of its target is delivered |
| Watches.CacheAgreesUpToPending | pkg/etcdnase/helper.go:16-206 | with read and registration as one step, a wrong cached answer always has an undelivered event that will drop it |
| Watches.RaceLeavesStaleAnswer | pkg/etcdnase/helper.go:57-76 | a write between read and registration leaves a wrong answer for good |
| Roles.RoleIsUnique | pkg/fred/roles.go:15-40 | each named method is given by exactly the role that the table lists it under |
| Roles.RolesGive | pkg/fred/roles.go:15-40 | some roles give a method if and only if the role it is listed under is among them |
| Roles.RolesAreDisjoint | pkg/fred/roles.go:15-40 | two roles share no method |
| AuthServices.AuthService.AddRoles | pkg/fred/auth.go:20-34 | adds all methods of the roles for one user on one keygroup, nothing else |
| AuthServices.AuthService.RevokeRoles | pkg/fred/auth.go:36-49 | removes all methods of the roles of one user on one keygroup, nothing else |
| AuthServices.AuthService.IsAllowed | pkg/fred/auth.go:51-74 | true exactly if the method is among the user's permissions on the keygroup |
| WholeRoles.RequestPerms | pkg/fred/exthandler.go:28-376 | a request changes permissions by its grant or revocation and by nothing else |
| WholeRoles.RunPerms | pkg/fred/exthandler.go:28-376 | over any run, permissions are those of the history of grants and revocations |
| WholeRoles.HistoryIsWhole | pkg/fred/auth.go:20-49 | a user's methods are always a union of complete roles |
| WholeRoles.LatestDecides | pkg/fred/auth.go:20-74 | a method is allowed if and only if the latest grant or revocation of its role was a grant |
| WholeRoles.RunsGrantWholeRoles | pkg/fred/auth.go:20-74 | for every run from an empty system, method sets are unions of complete roles and the latest change that touches a method decides on it |
| WholeRoles.NamedRoleDecides | pkg/fred/roles.go:15-40 | a method is allowed if and only if the latest change that names its role was a grant |
| WholeRoles.RunsObeyRoles | pkg/fred/exthandler.go:53-376 | after any run, writes need the latest word on role W, replicas on C, triggers on T, users and deletion of the keygroup on K to be a grant; else the request changes nothing |
| WholeRoles.ReadersChangeNothing | pkg/fred/roles.go:17-19 | a user who was only ever granted R changes nothing but by creating a keygroup |
| Naming.RecordStep | pkg/etcdnase/keygroups.go:14-175 | an operation on one keygroup's flat keys is the protocol's step on its record, and no other keygroup's slice changes |
| Naming.CreateKeygroup | pkg/fred/replicationservice.go:56-80 | the flat keys represent the founded keygroup afterwards, or are as before if it existed |
| Naming.IsAllowed | pkg/fred/auth.go:51-74 | the flat permissions answer every handler's guard as the protocol's slice does |
| Naming.AddRoles | pkg/fred/auth.go:20-34 | on the flat keys, adding roles is the protocol's grant |
| Naming.RevokeRoles | pkg/fred/auth.go:36-49 | on the flat keys, revoking roles is the protocol's revocation |
| Naming.ReportFailedNode | pkg/etcdnase/failednodes.go:13-25 | on the flat keys, reporting is the protocol's report |
| Naming.DrainStep | pkg/fred/fred.go:94-97 | a drain gives exactly the ids that recovery asks for, and leaves the reports that recovery leaves |
| Clusters.Cluster.Trigger | pkg/fred/trigger.go:98-161 | every registered trigger whose host answers is told, and the result is an error if any host does not |
| Clusters.Cluster.HandleChange | pkg/fred/inthandler.go:81-137 | a relayed change is written if the keygroup is here and the item valid, then triggers are told |
| Clusters.Cluster.SendChange | pkg/fred/replicationservice.go:169-175 | the change reaches the peer exactly over a working link |
| Clusters.Cluster.ReportNodeFail | pkg/fred/replicationservice.go:41-53 | adds one report |
| Clusters.Cluster.RelayChange | pkg/fred/replicationservice.go:147-264 | relays to every other member, in any order, and reports each that did not acknowledge |
| Clusters.Cluster.OpenSite | pkg/fred/inthandler.go:54-61 | a node opens an absent copy and refuses a present one |
| Clusters.Cluster.CloseSite | pkg/fred/inthandler.go:64-78 | a node drops a present copy and refuses an absent one |
| Clusters.Cluster.ServeUpdate | pkg/fred/exthandler.go:172-215 | relays first, then writes locally, then tells triggers; refused as the protocol says |
| Clusters.Cluster.ServeAppend | pkg/fred/exthandler.go:124-169 | appends locally first, then relays the chosen id, then tells triggers |
| Clusters.Cluster.ServeDelete | pkg/fred/exthandler.go:218-255 | deletes locally first, then relays, then tells triggers |
| Clusters.Cluster.ServeCreateKeygroup | pkg/fred/exthandler.go:28-50 | name service first, then the local copy, then all roles for the user |
| Clusters.Cluster.ServeDeleteKeygroup | pkg/fred/exthandler.go:53-75 | local copy first, then every other member, then the record; an unreachable member keeps its copy |
| Clusters.Cluster.SendItems | pkg/fred/replicationservice.go:385-406 | sends every item once, in any order, and reports what is not acknowledged |
| Clusters.Cluster.SendAddReplica | pkg/fred/replicationservice.go:318-341 | fails exactly if another member cannot be told |
| Clusters.Cluster.ServeAddReplica | pkg/fred/replicationservice.go:267-423 | joins, opens the copy, tells the members, then copies from the coordinator or from the chosen source |
| Clusters.Cluster.ServeRemoveReplica | pkg/fred/replicationservice.go:428-502 | refuses non-members and the last member, else drops the copy and then the membership |
| Clusters.Cluster.ServeAddTrigger | pkg/fred/exthandler.go:302-315 | registers the trigger at this node |
| Clusters.Cluster.ServeRemoveTrigger | pkg/fred/exthandler.go:329-342 | removes the trigger at this node |
| Clusters.Cluster.ServeAddUser | pkg/fred/exthandler.go:357-365 | grants a role if the user may |
| Clusters.Cluster.ServeRemoveUser | pkg/fred/exthandler.go:368-376 | revokes a role if the user may |
| Clusters.Cluster.Change | pkg/fred/replicationservice.go:169-180 | links and hosts change, and no keygroup does |
| Clusters.Cluster.Serve | pkg/fred/exthandler.go:28-376 | any request is the step that runs are made of, with choices the code can make, and touches no other keygroup |
| Clusters.Cluster.TakeReported | pkg/fred/fred.go:66-94 | registers the node and takes everything reported for it |
| Clusters.Cluster.FetchItem | pkg/fred/fred.go:98-112 | stores what the chosen source has, or nothing if it cannot be asked or does not have it |
| Clusters.Cluster.Start | pkg/fred/fred.go:64-122 | every keygroup takes the step of the runs for a node that starts again, with sources the code can choose |
| Convergence.UpdateConverges | pkg/fred/exthandler.go:172-215 | an update changes all replicas as it changes one map |
| Convergence.AppendConverges | pkg/fred/exthandler.go:124-169 | an append changes all replicas alike and keeps every counter above every id |
| Convergence.DeleteConverges | pkg/fred/exthandler.go:218-255 | a deletion changes all replicas as it changes one map |
| Convergence.CreateConverges | pkg/fred/exthandler.go:28-50 | a created keygroup is stored by its creator alone, empty |
| Convergence.DropConverges | pkg/fred/replicationservice.go:99-143 | a deleted keygroup is stored nowhere |
| Convergence.RemoveReplicaConverges | pkg/fred/replicationservice.go:428-502 | removing a replica keeps the rest in agreement; that it is removed is `Effects.RemoveReplicaEffect` |
| AddingReplicas.AddReplicaConverges | pkg/fred/replicationservice.go:267-423 | adding a replica that can be served keeps the members in agreement; that it is added is `Effects.AddReplicaAdds` |
| AddingReplicas.AddReplicaExactly | pkg/fred/replicationservice.go:343-383 | adding a replica keeps the members in agreement if and only if it can be served |
| Runs.RecordAfter | pkg/fred/replicationservice.go:56-502 | exactly what each request does to the record and when, whatever happens to its messages |
| Runs.InitialIsHealthy | pkg/fred/fred.go:64-122 | a keygroup nobody has created satisfies the start condition of the runs |
| Runs.RequestConverges | pkg/fred/exthandler.go:28-376 | every delivered request acts on the replicas as on one map |
| Runs.RecoverConverges | pkg/fred/fred.go:64-122 | a restart among agreeing members changes nothing they hold |
| Runs.RunConverges | pkg/fred/exthandler.go:28-376 | over every run of delivered requests, exactly the members store the keygroup and all hold the same items |
| Runs.AppendIsFresh | pkg/badgerdb/badgerdb.go:334-399 | an append takes an id that no member uses |
| Runs.RefusedDrop | pkg/fred/exthandler.go:53-75 | a request to delete after which the keygroup still exists changed nothing |
| Runs.RunKeepsLog | pkg/fred/exthandler.go:124-242 | as long as an immutable keygroup exists, no item of its log changes or goes, whatever is requested |
| Runs.RunKeepsItems | pkg/fred/inthandler.go:103-122 | as long as it exists, what any member stored, any member stores later, across removal and re-adding of replicas |
| Effects.UnpermittedChangesNothing | pkg/fred/exthandler.go:53-376 | a request without the needed method is refused and changes nothing at all |
| Effects.AnswersExactly | pkg/fred/exthandler.go:28-376 | for every request, the condition under which it is answered with success, read off the state before the call |
| Effects.UpdateSpreads | pkg/fred/exthandler.go:172-215 | an accepted update is written, and told to triggers that answer, exactly where it can be taken; exactly the other members that did not take it or have a silent trigger host are reported |
| Effects.AppendSpreads | pkg/fred/exthandler.go:124-169 | the same for an append under the number that the coordinator's counter gives |
| Effects.DeleteSpreads | pkg/fred/exthandler.go:218-255 | the same for a deletion |
| Effects.TurnedDownChangesNothing | pkg/fred/exthandler.go:124-242 | writes against the mutability, to absent copies or of absent items change nothing |
| Effects.StaleWriteIsLocal | pkg/fred/exthandler.go:150-169 | a copy of a keygroup that is deleted elsewhere is written alone and silently, and the answer is an error |
| Effects.CreateEffect | pkg/fred/exthandler.go:28-50 | a new keygroup has the given mutability and expiry, its creator as only member and an open copy, and its user all twelve methods |
| Effects.DeleteKeygroupEffect | pkg/fred/replicationservice.go:99-143 | exactly the coordinator's copy and those of reached members are dropped, and the record is gone |
| Effects.DeleteKeygroupRefused | pkg/fred/exthandler.go:60-64 | a coordinator without a copy refuses the deletion |
| Effects.AddReplicaEffect | pkg/fred/replicationservice.go:267-341 | an accepted request makes the node a member with its expiry, opens its copy if it is reached, and touches no other copy |
| Effects.AddReplicaCopies | pkg/fred/replicationservice.go:343-406 | a successful one ends with exactly the items of the coordinator or of the chosen source |
| Effects.AddReplicaAdds | pkg/fred/replicationservice.go:267-423 | among agreeing members it ends with a new member that holds all the items |
| Effects.RemoveReplicaEffect | pkg/fred/replicationservice.go:428-502 | a removal that succeeds ends the membership and drops the copy; any other changes nothing |
| Effects.AddTriggerEffect | pkg/fred/trigger.go:163-167 | an accepted trigger is registered with its host at this node alone |
| Effects.RemoveTriggerEffect | pkg/fred/trigger.go:175-179 | a removed trigger is gone, with what it was told |
| Effects.NextChangeIsHeard | pkg/fred/trigger.go:98-161 | the first change after the registration is the first note, if the host answers |
| Effects.RecoverEffect | pkg/fred/fred.go:94-113 | a node that starts again takes exactly its reports and stores exactly what its sources offer of them |
| Effects.OthersAre | pkg/etcdnase/keygroups.go:128-136 | sources are chosen among the other members, with their expiries |
| Membership.RunStaysPeopled | pkg/fred/replicationservice.go:451-483 | over every run, whatever fails, an existing keygroup has a member |
| Membership.RunCounters | pkg/badgerdb/badgerdb.go:378-399 | no node's append counter ever goes back |
| Membership.AppendIdsNeverRepeat | pkg/badgerdb/badgerdb.go:334-399 | an id is never handed out twice by a node, across deletion, re-creation, removal and re-adding |
| Divergence.RequestIsRecorded | pkg/fred/replicationservice.go:147-264 | after a request, each member holds the last value of an id or is reported for it |
| Divergence.RunIsRecorded | pkg/fred/replicationservice.go:147-264 | the same over every run of requests, failures, removals of members, and restarts that mend |
| Divergence.UnreportedHoldsLast | pkg/etcdnase/failednodes.go:13-25 | a member without reports holds exactly the last values |
| Divergence.RecoverMends | pkg/fred/fred.go:94-113 | whatever the sources, a restarted member holds the last values if and only if each missed item is fetched with its last value or need not be fetched |
| Divergence.RecoverStaysRecordedExactly | pkg/fred/fred.go:94-113 | after a restart every divergence is still reported if and only if the node is no member or is mended |
| Divergence.RecoverExactly | pkg/fred/fred.go:94-113 | with clean sources, a restarted member holds the last values if and only if it kept no item deleted meanwhile; its reports are gone |
| Divergence.RecoveryRestoresAgreement | pkg/fred/fred.go:94-113 | it then equals every member that has missed nothing, under the same exact condition |
| Divergence.HealthyIsRecorded | pkg/fred/replicationservice.go:41-53 | a keygroup whose members agree is where such runs can start |
| TriggerLog.RequestReplaysExactly | pkg/fred/exthandler.go:150-252 | a request keeps every steady trigger's log complete if and only if it is no write at a stale copy with such a trigger |
| TriggerLog.StartReplaysExactly | pkg/fred/fred.go:98-112 | a restart keeps every steady trigger's log complete if and only if it brings no new value to a node with such a trigger |
| TriggerLog.RunReplays | pkg/fred/trigger.go:98-161 | over every audible run, replaying what a trigger was told gives the node's items |
| TriggerLog.RunKeepsListening | pkg/fred/trigger.go:163-179 | a registered trigger stays registered, and keeps what it heard, until it is removed or registered anew or the copy is closed |
| TriggerLog.RegisteredTriggerReplays | pkg/fred/trigger.go:98-179 | from a successful registration on, over every audible run, the trigger is registered and replaying its notes over the items at registration gives the node's items |
| Counterexamples.OutsiderAddsEmptyReplica | pkg/fred/replicationservice.go:343-356 | a coordinator that is no member adds an empty member |
| Counterexamples.DeletedItemComesBack | pkg/fred/fred.go:98-112 | a missed deletion is undone by recovery |
| Counterexamples.ReportIsLost | pkg/etcdnase/failednodes.go:38-50 | a member that restarts while its source is unreachable stays behind, and its report is gone |
| Counterexamples.RecoveryIsSilent | pkg/fred/fred.go:98-112 | a restarted member gets an item and does not tell its trigger |
| Counterexamples.StaleReplicaIsSilent | pkg/fred/exthandler.go:239-252 | a stale copy deletes an item without telling its trigger |
| Counterexamples.UnlimitedBeatsLarger | pkg/etcdnase/failednodes.go:79-90 | the early stop can miss a larger expiry above MaxInt32 |
| Counterexamples.SeparatorIsLost | pkg/etcdnase/failednodes.go:39-42 | an id with a separator is not read back |

## Left out

- Item expiry by the clock: items are stored with expiry 0; a replica's expiry is kept as a number and used to choose a source.
- The store interface's DynamoDB implementation (`pkg/dynamo/dynamo.go`) behaves differently, for example in `Append`, and is not modelled.
- Badger, etcd and ristretto themselves: they are a map, a map, and a cache that may drop an answer at any time; their transactions do not fail, and the name service is always reachable.
- 64-bit wrap-around of append counters, and the range error of `strconv.Atoi`: numbers are unbounded.
- gRPC, TLS, certificates, command lines, logging, profiling, the proxy, Alexandra and the storage server: plumbing.
- Messages: a send is delivered, together with its answer, exactly when the link to the receiver works and stays up for the whole request; a message that arrives without its answer coming back is not modelled.
- Overlapping requests: each client request runs to its end before the next. Ids of appends and the check for the last member are not coordinated between nodes.
- Reads by clients (`HandleRead`, `HandleScan`, the getters): they change nothing; the scan and the reads below them are modelled in `StoreServices` and `Badger`.
- Invalid keygroup names at creation: the name service is written before the store checks the name, so names are assumed valid through the type `Name`.
- Listing all nodes (`GetAllNodes`): the cached `node|` prefix is not kept right by the writers of addresses.
- Badger.Storage.Update: the time-to-live of an entry is not modelled, and ids are alphanumeric, as the store service checks before it calls.
- Badger.Storage.Append: the time-to-live of an entry is not modelled.
- Histories.PerformThroughCache: one client with a cache of its own; a cache beside other writers is the subject of `Watches`.
- Clusters.Cluster.RelayChange: one method stands for the relays of an update, an append and a deletion, which differ in the message alone; members always have addresses, so the failing look-ups in the loops are not reached.
- Clusters.Cluster.Trigger: what a trigger node answers is reduced to whether its host answers without an error.
- NameServices.NameService.RequestNodeStatus: when the cache holds an older list of reports, that list is drained instead; it is only required to consist of reports.
- AddingReplicas.AddReplicaConverges: assumes `Served`, because a coordinator that is no member cannot hand over items; `AddReplicaExactly` shows the assumption is exact.
- Divergence.RunIsRecorded: no member is added and the keygroup is not deleted during the run, since a new member starts from what its coordinator holds; restarts are those after which, by `RecoverStaysRecordedExactly`, every divergence is still reported.
- TriggerLog.RunReplays: excludes exactly the events that `RequestReplaysExactly` and `StartReplaysExactly` show to break a steady trigger's log.
