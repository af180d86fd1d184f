# SmartMultipeer and its Realm: a verified model

SmartMultipeer keeps a list of nearby devices, connects to them through a peer-to-peer session, sends
messages that are acknowledged, and remembers devices and their pairing in a Realm database. This
project models that protocol and the parts of the Realm layer whose code is in the repository, and
proves what each promises on every input, over every run, or in every reachable state. All the
Dafny files are checked together by `dafny verify dfyconfig.toml`.

## What is modelled

**The peer protocol.** `PeerState.dfy` gives the reaction of one device to every framework callback,
API call and main-queue task, as a function from its state to a new state, the tasks it posts, the
packets it sends and the events it reports. `PeerInvariants.dfy` and `Pairing.dfy` prove what those
reactions keep. `PeerNetwork.dfy` runs any number of distinctly named devices against each other, with
packets in the air and tasks on the main queues taken in any order, packets lost at any point, and
session changes, discoveries and losses at any time. `StepLaws.dfy` and `StateLaws.dfy` tell each step
from its outcome: the one cause of every task, packet and event that appears, and what each device
holds about each name afterwards. `Acknowledgement.dfy`, `Storms.dfy`, `Invitations.dfy` and
`RunLaws.dfy` prove properties of all runs; `FailingRuns.dfy` has runs in which the code goes wrong.
`DeviceStore.dfy` and `PeerConnectivity.dfy` hold the library's mutable objects: each method changes
the objects in place and is proved to perform exactly the reaction of `PeerState.dfy`, so the results about reactions and
runs are about these methods. The query for disconnected devices is carried out on sets of shared
objects that compare by name, and its contract says which objects it overwrites.

**The Realm object store.** `ObjectStore.dfy` says, for one table, which cells `create` and
`set_property_value` write, when they throw and what they leave behind; `StoreLaws.dfy` and
`UpsertLaws.dfy` prove laws about that, and `CreationLaws.dfy` says what becomes of the table in each
case, whether the call goes through or throws; `ObjectTable.dfy` has the calls themselves, with their loops
and early exits, proved equal to it. The input is unboxed as the reference accessor context does
(`Example/Pods/Realm/include/impl/object_accessor_impl.hpp`). `ObjectLists.dfy` and `RealmList.dfy` do
the same for `List::assign` in both modes, for values and for links, and `ListSteps.dfy` follows it
element by element, to where it throws. `ListLaws.dfy` says what it leaves and compares the modes for
objects without primary keys; `KeyedLinks.dfy` and `KeyedLists.dfy` do so for objects that have one.

**Smaller algorithms.** `ChunkedRanges.dfy`: the two-level iterator and the index iterator.
`Timestamps.dfy`: date conversion over exact reals. `ListRanges.dfy`: range replacement, removal and
insertion with their error paths. `ObservationChain.dfy`: the walk over a doubly linked observer chain.

## Assumptions

- Callbacks, API calls and main-queue tasks are atomic. Tasks and packets may run or arrive in any
  order, which covers every order that queues, delays and the reliable transport allow.
- The session's list of connected peers changes together with the callback that reports it, and has
  no name twice. Whether the framework accepts a message is a parameter of the step that sends it.
- Devices have distinct names. Applications send only non-control message types.
- The Realm is open and its writes succeed.
- `reinitializeSession` is called while no nearby device is marked connected;
  `PeerInvariants.ReinitializeAgreement` shows that this is exactly when it is safe.
- A delayed acknowledgement runs only while its target is connected; otherwise the program stops
  (`SmartMultipeer/Classes/PeerConnectivity.swift:186`), and what follows that is not modelled.
- What core returns for a null cell read as a plain value is a parameter of the store. A null that
  reaches `table.set` on a required column is refused. A new cell is null if its column is nullable
  and zero or empty otherwise.

## Where the code falls short, and exactly when

- The paired-only query for disconnected devices also reports connected devices that are not paired,
  and marks them as not connected in the nearby list itself. It is right exactly when every connected
  device is paired (`PeerInvariants.PairedHistoryExact`, `FailingRuns.PairedHistoryDemotes`).
- In the write-only-what-changed mode a null cell can be mistaken for the value that should replace
  it. By core's documentation this happens when zero is written over a null integer
  (`UpsertLaws.NullIntegerMistaken`); the two modes agree exactly when it does not happen
  (`UpsertLaws.DiffEndsAsPlain`).
- Assigning a list of objects without primary keys in place differs from replacing it in four cases: one
  row is linked twice and given two different objects; a null cell hides a supplied value
  (`ListLaws.NullHidesZero`); a value leaves out a property whose old cell differs from a new object's;
  or an object given for one position is updated at another (`ListLaws.UpdateReachesGivenObject`).
  There are no others (`ListLaws.InPlaceEqualsReplace`, `ListLaws.DistinctInPlaceEqualsReplace`).
- For objects with a primary key only the second case remains: the two modes take the same steps exactly
  as long as no null hides a value (`KeyedLists.KeyedAgreeExactly`).
- A delayed acknowledgement reads the first element of the list of its targets without a check. If the
  target has left the session meanwhile, that list is empty (`FailingRuns.AcknowledgementWithoutTarget`).
- During a migration, creating without update and setting a key can each leave two rows with one key; a
  creation that throws before it reaches the key leaves a row with the empty key
  (`UpsertLaws.KeysUniqueUnlessMigrated`, `UpsertLaws.SetKeyInMigration`,
  `UpsertLaws.MigrationDuplicates`).
- The lower clamp of the date conversion subtracts the epoch shift where it should add it, so it
  catches timestamps that could be represented, and both clamps lose the fraction
  (`Timestamps.TimestampRoundTrip`, `Timestamps.LowerClampLoses`).
- The repository's `README.md` lists four delegate methods and an older signature of `sync`; the model
  follows `SmartMultipeer/Classes/DataSync.swift` and the calls in the code.

## Model

| member | source | states |
|---|---|---|
| Acknowledgement.AcknowledgementIsSound | SmartMultipeer/Classes/PeerConnectivity.swift:148-211 | in every run, each acknowledgement seen at q from p goes back to an earlier reception at p of a message with its id and through that to an earlier sending by q |
| Acknowledgement.AcknowledgementsAreApart | SmartMultipeer/Classes/PeerConnectivity.swift:148-211 | that matching is one-to-one: no reception and no sending is acknowledged twice |
| Acknowledgement.Conservation | SmartMultipeer/Classes/PeerConnectivity.swift:305-330 | in every reachable state, messages sent from q to p are received, lost or under way, and each one received has led to exactly one acknowledgement, received, lost or under way |
| Acknowledgement.QuietMeansAcknowledged | SmartMultipeer/Classes/PeerConnectivity.swift:305-330 | when nothing is under way and nothing was lost, as many acknowledgements arrived as messages were sent |
| Acknowledgement.RunDominated | SmartMultipeer/Classes/PeerConnectivity.swift:148-211 | at every moment of every run, acknowledgements do not exceed receptions, nor receptions sendings |
| Acknowledgement.EveryAckHasSync | SmartMultipeer/Classes/PeerConnectivity.swift:305-330 | the k-th acknowledgement of a message comes after its k-th reception |
| Acknowledgement.EverySyncHasSend | SmartMultipeer/Classes/PeerConnectivity.swift:194-209 | the k-th reception of a message comes after its k-th sending by the device it names |
| Acknowledgement.AcksAnswerDistinctSyncs | SmartMultipeer/Classes/PeerConnectivity.swift:325-327 | two acknowledgements never answer the same reception |
| Acknowledgement.TaskGaps | SmartMultipeer/Classes/PeerConnectivity.swift:151-192 | a main-queue task puts back exactly the message or acknowledgement that it takes out, or hands it to the delegate |
| Storms.NoStorm | SmartMultipeer/Classes/PeerConnectivity.swift:149-211 | while no application sends, packets delivered or lost and tasks run number at most the work at the start, plus one for each connection made |
| Storms.InternalStepsShrink | SmartMultipeer/Classes/PeerConnectivity.swift:305-330 | delivering, losing or handling anything leaves strictly less work: acknowledge and unpair messages cause no reply |
| Storms.OtherStepsAddLittle | SmartMultipeer/Classes/PeerConnectivity.swift:278-302 | discovery, session changes and the other calls add no work except one note per connection |
| Storms.UnpairWork | SmartMultipeer/Classes/PeerConnectivity.swift:151-168 | the unpair broadcast and the disconnection after it stay within a budget set by the number of devices |
| RunLaws.InvitationsExact | SmartMultipeer/Classes/PeerConnectivity.swift:374-393 | in every run a step invites a name exactly if it discovers it and the last setup did not ask for pairing or the flag last written for it is on; it does so once |
| RunLaws.SetupDecides | SmartMultipeer/Classes/PeerConnectivity.swift:62-81 | in every reachable state pairing is required exactly if the last setup asked for it |
| RunLaws.PairingHasCause | SmartMultipeer/Classes/PeerConnectivity.swift:281-287 | a flag is switched on only for a device that was reported connected while pairing was required |
| RunLaws.UnpairingHasCause | SmartMultipeer/Classes/PeerConnectivity.swift:131-140 | a flag is switched off only if the named device called unpair, or this one did while connected to it |
| RunLaws.InvitedWasConnected | SmartMultipeer/Classes/PeerConnectivity.swift:391-393 | an invitation under required pairing of a device unpaired at first comes after a connection to it |
| RunLaws.DeliveredIntact | SmartMultipeer/Classes/PeerConnectivity.swift:305-330 | in every reachable state each message, with its data, type and id, was handed to the delegate just as sent, was lost, or is under way |
| RunLaws.TaskLedger | SmartMultipeer/Classes/PeerConnectivity.swift:142-211 | in every reachable state each task has been asked for as often as it was run or is waiting |
| StepLaws.TaskCauses | SmartMultipeer/Classes/PeerConnectivity.swift:278-330 | each task appears once for its one cause, a message, a connection under required pairing, an unpairing, and goes when it is run |
| StepLaws.PacketCauses | SmartMultipeer/Classes/PeerConnectivity.swift:149-211 | each packet appears once for the call or task that sends it, and goes when it is delivered or lost |
| StepLaws.EventCauses | SmartMultipeer/Classes/PeerConnectivity.swift:278-414 | each delegate call, invitation and flag write happens once for its one cause |
| StepLaws.SendsExactly | SmartMultipeer/Classes/PeerConnectivity.swift:194-209 | a call sends a packet exactly to the peers of the session, or to the one named, while a nearby device is connected and the message is accepted, with the message as given, once to each |
| StateLaws.EntryCauses | SmartMultipeer/Classes/PeerConnectivity.swift:278-414 | after a step, what the nearby list says of each name: found, lost, changed, demoted, emptied by a disconnection, or as before |
| StateLaws.SessionCauses | SmartMultipeer/Classes/PeerConnectivity.swift:103-119 | after a step, whether the session has each name |
| StateLaws.RowCauses | SmartMultipeer/Classes/RealmHelper.swift:30-82 | after a step, what the history says of each name: stored once, as connecting and unpaired; flag on by a connection's task, off by an unpairing; or as before |
| StateLaws.NeedsPairingCauses | SmartMultipeer/Classes/PeerConnectivity.swift:62-81 | only a setup changes whether pairing is required |
| Invitations.InvitationsArePaired | SmartMultipeer/Classes/PeerConnectivity.swift:391-393 | in every run, an automatic invitation under required pairing goes to a device whose last written flag is on at that moment |
| Invitations.InvitationsFollowPairing | SmartMultipeer/Classes/PeerConnectivity.swift:391-393 | if the history began without it, such an invitation follows a pairing of that device that no unpairing has followed |
| Invitations.FlagIsLastWrite | SmartMultipeer/Classes/RealmHelper.swift:63-95 | in every reachable state each flag is the argument of the last effective write, or what it was before the run |
| PeerNetwork.ReachableHistory | SmartMultipeer/Classes/PeerConnectivity.swift:231-246 | in every reachable state the full query returns exactly the stored names that are neither connected nor connecting, and changes nothing |
| PeerNetwork.ReachableAgreement | SmartMultipeer/Classes/PeerConnectivity.swift:374-414 | in every reachable state a connected entry is in the session, rediscovery keeps it, and a broadcast while connected has recipients and misses no connected entry |
| PeerNetwork.RunKeepsDevices | SmartMultipeer/Classes/PeerConnectivity.swift:278-302 | over every run each device keeps distinct nearby names, distinct rows, nearby names recorded, and agreement with its session |
| PeerNetwork.SpeaksForItself | SmartMultipeer/Classes/PeerConnectivity.swift:149-211 | a device sends only in its own name and only to peers of its session, and reports only its own events |
| PeerInvariants.FoundKeeps | SmartMultipeer/Classes/PeerConnectivity.swift:374-402 | a discovery keeps the invariant, including that the found device is recorded once |
| PeerInvariants.RediscoveryKeepsConnected | SmartMultipeer/Classes/PeerConnectivity.swift:374-389 | a discovery demotes no connected entry, changes no other entry, and lists the device, as connecting unless the session has it |
| PeerInvariants.ChangeEntries | SmartMultipeer/Classes/PeerConnectivity.swift:278-302 | a reported change sets that device's entry and no other; a listed device is then connected exactly if the session has it |
| PeerInvariants.LostEntries | SmartMultipeer/Classes/PeerConnectivity.swift:405-414 | a lost device is neither connected nor connecting in the list, others are untouched, and the session is not |
| PeerInvariants.ReinitializeAgreement | SmartMultipeer/Classes/PeerConnectivity.swift:103-106 | a new session agrees with the nearby list exactly when no entry is marked connected |
| PeerInvariants.BroadcastCovers | SmartMultipeer/Classes/PeerConnectivity.swift:194-205 | a broadcast goes to each session peer once and covers the connected entries; a directed message goes to exactly its target, if connected |
| PeerInvariants.HistoryExact | SmartMultipeer/Classes/PeerConnectivity.swift:231-246 | on any state, the two symmetric differences are a set difference exactly when no unrecorded name is live in just one way and no recorded name in both |
| PeerInvariants.HistoryUntouched | SmartMultipeer/Classes/PeerConnectivity.swift:242-245 | while no name is listed twice, the query overwrites no nearby entry exactly when every live entry is among the rows it reads |
| PeerInvariants.HistoryIsDifference | SmartMultipeer/Classes/PeerConnectivity.swift:231-246 | under the invariant the full query is stored minus live and changes nothing |
| PeerInvariants.PairedHistoryExact | SmartMultipeer/Classes/PeerConnectivity.swift:231-246 | the paired-only query is a set difference exactly when every connected device is paired, and, while no name is listed twice, harmless exactly then |
| FailingRuns.AcknowledgementWithoutTarget | SmartMultipeer/Classes/PeerConnectivity.swift:151-192 | a run of seven steps after which a delayed acknowledgement waits although its target has left the session |
| FailingRuns.PairedHistoryDemotes | SmartMultipeer/Classes/PeerConnectivity.swift:231-246 | a run of two steps, discovery and connection, after which the paired-only query reports a connected device as disconnected and overwrites its entry |
| Pairing.SetPairedRefines | SmartMultipeer/Classes/RealmHelper.swift:63-82 | setting a flag updates the map the table stands for at a known name, and nothing at an unknown one |
| Pairing.StoreRefines | SmartMultipeer/Classes/RealmHelper.swift:30-42 | storing adds an unpaired name; storing a known name again changes no flag |
| Pairing.AsMapLookup | SmartMultipeer/Classes/RealmHelper.swift:84-95 | the flag lookup is the lookup in that map, off for unknown names |
| Pairing.UnPairClears | SmartMultipeer/Classes/PeerConnectivity.swift:131-140 | unpairing switches off the flags of the connected devices and no others, and queues one message |
| DeviceStore.RealmHelper.Store | SmartMultipeer/Classes/RealmHelper.swift:30-42 | appends a row object without looking for an earlier one |
| DeviceStore.RealmHelper.Set | SmartMultipeer/Classes/RealmHelper.swift:63-82 | changes the first row with the name, and answers whether there is one |
| DeviceStore.RealmHelper.GetIsPaired | SmartMultipeer/Classes/RealmHelper.swift:84-95 | the flag of the first row with the name, off if there is none |
| DeviceStore.RealmHelper.GetDevicesHistory | SmartMultipeer/Classes/RealmHelper.swift:44-61 | new objects only, one for each row, or for each paired one, with the name and state stored there |
| DeviceStore.AnswerNames | SmartMultipeer/Classes/PeerDevice.swift:15-23 | sets of objects that compare by name give the names of the symmetric differences, each name once |
| DeviceStore.AnswerObject | SmartMultipeer/Classes/PeerConnectivity.swift:231-241 | exactly which objects of the nearby list are themselves in the answer |
| Connectivity.PeerConnectivity.BrowserFoundPeer | SmartMultipeer/Classes/PeerConnectivity.swift:374-402 | performs the reaction to a discovery in place |
| Connectivity.PeerConnectivity.BrowserLostPeer | SmartMultipeer/Classes/PeerConnectivity.swift:405-414 | performs the reaction to a loss in place |
| Connectivity.PeerConnectivity.SessionDidChange | SmartMultipeer/Classes/PeerConnectivity.swift:278-302 | performs the reaction to a session change in place, posting the pairing note |
| Connectivity.PeerConnectivity.SendData | SmartMultipeer/Classes/PeerConnectivity.swift:194-209 | sends to the session's peers, or the named one, only while a nearby device is connected |
| Connectivity.PeerConnectivity.UnPair | SmartMultipeer/Classes/PeerConnectivity.swift:131-140 | switches off each connected device's flag in turn and posts the unpair message |
| Connectivity.PeerConnectivity.Disconnect | SmartMultipeer/Classes/PeerConnectivity.swift:109-119 | empties the nearby list and gives up the session |
| Connectivity.PeerConnectivity.SendInvitationForPairing | SmartMultipeer/Classes/PeerConnectivity.swift:121-129 | invites exactly when pairing is required and the name is one of an available device |
| Connectivity.PeerConnectivity.RunTask | SmartMultipeer/Classes/PeerConnectivity.swift:305-330 | takes a task off the main queue and performs its reaction |
| Connectivity.PeerConnectivity.GetHistoryDisconnectedPeers | SmartMultipeer/Classes/PeerConnectivity.swift:231-246 | returns one object for each name of the answer, overwrites their states, and, for the full query under the invariant, touches only new objects |
| StoreLaws.KeysOverHistory | Example/Pods/Realm/include/object_accessor.hpp:196-311 | over every sequence of calls outside migration, throwing ones included, keys stay unique, no row is lost and no key changes |
| StoreLaws.CreateKeepsKeys | Example/Pods/Realm/include/object_accessor.hpp:196-311 | one creation, whatever its outcome, keeps types, keys and rows |
| StoreLaws.PopulateCells | Example/Pods/Realm/include/object_accessor.hpp:283-303 | each column before the first failure gets its own decision on the cell it had, and nothing else changes |
| StoreLaws.PopulateError | Example/Pods/Realm/include/object_accessor.hpp:283-303 | populating throws exactly when some column fails, with the first one's error |
| StoreLaws.PopulateWrites | Example/Pods/Realm/include/object_accessor.hpp:66-74 | the cells written are those of the columns before the first failure that decide to write |
| StoreLaws.PopulateSucceedsIff | Example/Pods/Realm/include/object_accessor.hpp:283-303 | populating goes through exactly when every supplied value fits its property and nothing required is missing |
| CreationLaws.KeyExact | Example/Pods/Realm/include/object_accessor.hpp:210-226 | the key is the given value, the default, or null where allowed, and usable exactly if it fits |
| CreationLaws.CreateWithoutKey | Example/Pods/Realm/include/object_accessor.hpp:210-226 | without a usable key nothing changes, and the error says why |
| CreationLaws.CreateRefused | Example/Pods/Realm/include/object_accessor.hpp:250-263 | a key that is taken is refused without update outside migration, and nothing changes |
| CreationLaws.CreateUpdates | Example/Pods/Realm/include/object_accessor.hpp:250-303 | with update, the first row with the key is filled in, going through or up to the first property that throws, and no other row changes |
| CreationLaws.CreateAdds | Example/Pods/Realm/include/object_accessor.hpp:228-303 | a key that is not taken gets a new row after the others, filled in likewise with values and defaults |
| CreationLaws.CreateDuplicates | Example/Pods/Realm/include/object_accessor.hpp:250-303 | in a migration without update a key that is taken gets a second row, its key filled in like the rest |
| CreationLaws.KeylessUpdates | Example/Pods/Realm/include/object_accessor.hpp:265-303 | without keys, the row linked now is filled in when only changes are to be written |
| CreationLaws.KeylessAdds | Example/Pods/Realm/include/object_accessor.hpp:265-303 | without keys, otherwise, a new row is added and filled in |
| CreationLaws.PopulateIsFilled | Example/Pods/Realm/include/object_accessor.hpp:283-303 | populating goes through exactly if every property accepts its input, throws what the first other one calls for, and leaves the wanted cells before it |
| CreationLaws.SetPropertyExact | Example/Pods/Realm/include/object_accessor.hpp:43-57 | setting a property throws exactly for an unknown name, a key outside migration or a value that does not fit, each with its error, and otherwise sets that cell alone |
| UpsertLaws.UpsertRows | Example/Pods/Realm/include/object_accessor.hpp:210-303 | with update allowed, whether the call goes through or throws: nothing changes without a usable key, and with one a row is added exactly when no row has the key, and no other row changes |
| UpsertLaws.UpsertCells | Example/Pods/Realm/include/object_accessor.hpp:283-303 | supplied values are written, the rest keeps old values or gets defaults, exactly unless a null cell is mistaken for its new value |
| UpsertLaws.UpsertSucceedsIff | Example/Pods/Realm/include/object_accessor.hpp:210-303 | an upsert goes through exactly when its key and every other supplied value are acceptable |
| UpsertLaws.UpsertIdempotent | Example/Pods/Realm/include/object_accessor.hpp:210-303 | repeating a successful upsert succeeds on the same row and changes nothing |
| UpsertLaws.DiffEndsAsPlain | Example/Pods/Realm/include/object_accessor.hpp:66-98 | the write-only-what-changed mode fails when the plain one does, and ends in the same rows exactly when no null is mistaken |
| UpsertLaws.DiffWritesChanges | Example/Pods/Realm/include/object_accessor.hpp:66-74 | it calls table.set on exactly the cells that the plain mode would change and where no null is mistaken for the new value |
| UpsertLaws.NullIntegerMistaken | Example/Pods/Realm/include/core/realm/table.hpp:425-431 | with nulls read as documented, writing zero over a null integer in that mode leaves it null |
| UpsertLaws.KeysUniqueUnlessMigrated | Example/Pods/Realm/include/object_accessor.hpp:250-303 | of all creations, throwing ones included, exactly those leave two rows of one key that add a second row in a migration whose key, as it ends up, is there already |
| UpsertLaws.MigrationDuplicates | Example/Pods/Realm/include/object_accessor.hpp:250-263 | a table with key 1 to which a migration adds key 1 without update has two rows of that key |
| UpsertLaws.SetKeyInMigration | Example/Pods/Realm/include/object_accessor.hpp:43-57 | setting a property in a migration leaves two rows of one key exactly if it is the key and another row has the value |
| ObjectTable.Table.CreateObject | Example/Pods/Realm/include/object_accessor.hpp:196-311 | finds or adds the row, sets its key before anything else, populates it, and stops where it throws |
| ObjectTable.Table.PopulateRow | Example/Pods/Realm/include/object_accessor.hpp:283-303 | the loop over the properties, with its skips and its early exit |
| ObjectTable.Table.SetPropertyValue | Example/Pods/Realm/include/object_accessor.hpp:43-57 | refuses primary keys outside migration and unknown names, and otherwise sets one cell |
| ObjectTable.Table.SetPropertyValueImpl | Example/Pods/Realm/include/object_accessor.hpp:76-148 | the decision for one primitive cell, with nulls, unsupported types and values that do not unbox |
| ObjectTable.Table.FindFirstRow | Example/Pods/Realm/include/object_accessor.hpp:340-356 | the first row with the key, or none |
| ListLaws.InPlaceEqualsReplace | Example/Pods/Realm/include/list.hpp:249-282 | for objects without primary keys: when each mode of assign goes through; and if both do, they agree by value exactly when updates of one row are given the same object, no null hides a supplied value, what no update supplies is as in a new object, and no given object is changed on the way |
| ListLaws.DistinctInPlaceEqualsReplace | Example/Pods/Realm/include/list.hpp:249-282 | for objects without primary keys, over distinct updated rows the condition is about each position alone: supplied values are not hidden, left-out ones are as in a new object, no given object is updated to something else |
| ListLaws.NullHidesZero | Example/Pods/Realm/include/list.hpp:236-246 | with nulls read as documented, a list of one null integer that is assigned zero keeps the null in place and gets the zero otherwise |
| ListLaws.UpdateReachesGivenObject | Example/Pods/Realm/include/list.hpp:236-282 | an object that is given for one position while another position updates it is seen updated in place, and as it was otherwise |
| ListLaws.InPlaceByValue | Example/Pods/Realm/include/list.hpp:260-276 | for objects without primary keys: assigning in place goes through exactly if each element is accepted where it is put; the common prefix keeps its rows but for given objects, their cells get the updates, new rows follow, and no other row changes |
| ListLaws.ReplaceByValue | Example/Pods/Realm/include/list.hpp:277-282 | for objects without primary keys: clearing and adding goes through exactly if each element is accepted as new; it lists given objects as they are and one new object per other value, and leaves every old row alone |
| KeyedLists.KeyedInPlaceEqualsReplace | Example/Pods/Realm/include/list.hpp:249-282 | for objects with a primary key, both modes of assign go through together and end with the same rows and links, unless putting some element in place would overlook a value that a null hides |
| KeyedLists.KeyedAgreeExactly | Example/Pods/Realm/include/list.hpp:249-282 | when adding goes through, the two modes have the same rows after every number of elements exactly if no value is overlooked so |
| KeyedLists.KeyedAlwaysAgree | Example/Pods/Realm/include/list.hpp:249-282 | they always agree when no value given to a nullable property, by an element or a default, reads like null; so with required properties only |
| ListSteps.NextElementIs | Example/Pods/Realm/include/list.hpp:249-282 | in either mode one element more is found, created or updated in what the others left and linked after theirs; if it throws, that stays, with the links so far and, in place, the old rest |
| ListSteps.StopsThere | Example/Pods/Realm/include/list.hpp:249-282 | a call that has thrown does nothing more |
| KeyedLinks.AssignByKey | Example/Pods/Realm/include/list.hpp:249-282 | for objects with a primary key, in either mode: when assigning goes through, each element is linked by the row with its key or by its own, each new row by an element, keys stay unique and fixed, each cell holds what was last supplied for it, and no other row changes |
| KeyedLinks.ElementByKey | Example/Pods/Realm/include/list.hpp:236-246 | an element with a key goes through exactly if the key is usable, not taken unless updating is allowed, and its values fit; then that key's row, or a new one, is filled in |
| KeyedLinks.AssignInMigration | Example/Pods/Realm/include/list.hpp:249-282 | in a migration without update each element that is not an object gets a new row that holds it, and old rows stay |
| ListLaws.PastTheEnd | Example/Pods/Realm/include/list.hpp:263-271 | past the end of the old list, assigning in place is adding |
| ListLaws.RowForPlain | Example/Pods/Realm/include/list.hpp:236-246 | for objects without primary keys: updating in place keeps the row and writes the supplied values that no null hides; otherwise a new row is added; each exactly if the input is accepted |
| RealmList.PrimitiveList.Assign | Example/Pods/Realm/include/list.hpp:249-282 | both modes end with exactly the values; in place only differing positions of the common prefix are set; what a value that does not unbox leaves |
| RealmList.AssignedModesAgree | Example/Pods/Realm/include/list.hpp:249-282 | the two modes end alike unless a value fails to unbox before the old list is used up |
| RealmList.PrimitiveList.SetIfDifferent | Example/Pods/Realm/include/list.hpp:236-246 | sets a position only if its value differs |
| RealmList.ObjectList.AssignObjects | Example/Pods/Realm/include/list.hpp:249-282 | the same list is left alone, null clears, and otherwise the chosen mode is performed in place |
| RealmList.ObjectList.SetIfDifferent | Example/Pods/Realm/include/list.hpp:236-246 | unboxes against the row linked now and relinks only if the row differs |
| ChunkedRanges.PlaceIsPosition | Example/Pods/Realm/include/index_set.hpp:263-275 | iterator places and positions of the flat sequence correspond one for one, so equality is equality of positions |
| ChunkedRanges.NextMovesOn | Example/Pods/Realm/include/index_set.hpp:277-284 | ++ goes to the next position, across chunk edges, and -- undoes it |
| ChunkedRanges.PreviousMovesBack | Example/Pods/Realm/include/index_set.hpp:294-305 | -- goes to the position before, also from the end, and ++ undoes it |
| ChunkedRanges.NextChunkSkips | Example/Pods/Realm/include/index_set.hpp:315-320 | entering the next chunk skips exactly the rest of this one |
| ChunkedRanges.ChunkedRangeVectorIterator.Increment | Example/Pods/Realm/include/index_set.hpp:277-284 | performs ++ on the two fields |
| ChunkedRanges.ChunkedRangeVectorIterator.Decrement | Example/Pods/Realm/include/index_set.hpp:294-305 | performs -- on the two fields |
| ChunkedRanges.Traverse | Example/Pods/Realm/include/index_set.hpp:108-113 | from begin to end the ranges of all chunks are met in order |
| ChunkedRanges.VisitIndexes | Example/Pods/Realm/include/index_set.hpp:192-235 | the loop over single indexes visits every member of every range in order and stops at the end |
| ChunkedRanges.AllMembersCover | Example/Pods/Realm/include/index_set.hpp:192-219 | what is visited is exactly what some range covers |
| ChunkedRanges.AllMembersIncrease | Example/Pods/Realm/include/index_set.hpp:192-219 | over ordered ranges it comes in strictly increasing order |
| ChunkedRanges.SameIndexExact | Example/Pods/Realm/include/index_set.hpp:196-197 | comparing index iterators compares their ranges only, which still tells the end from everything else |
| Timestamps.TimestampForDate | Example/Pods/Realm/include/RLMUtil.hpp:144-167 | the conversion step by step |
| Timestamps.UnclampedInRange | Example/Pods/Realm/include/RLMUtil.hpp:151-166 | between the clamps no step of it leaves the range of its machine integer |
| Timestamps.SpecialDates | Example/Pods/Realm/include/RLMUtil.hpp:137-150 | no date and no timestamp correspond, and what is not a number becomes the start of 1970 |
| Timestamps.ForDateNormal | Example/Pods/Realm/include/core/realm/timestamp.hpp:65-74 | every result meets what the timestamp type asserts of signs and size |
| Timestamps.UnclampedNanos | Example/Pods/Realm/include/RLMUtil.hpp:157-166 | between the clamps the result is the date in nanoseconds, rounded toward the reference date |
| Timestamps.ForIntervalMonotone | Example/Pods/Realm/include/RLMUtil.hpp:151-166 | the conversion is monotone across both clamps |
| Timestamps.NormalOrder | Example/Pods/Realm/include/core/realm/timestamp.hpp:120-136 | in normal form the order of timestamps is the order of time |
| Timestamps.TimestampRoundTrip | Example/Pods/Realm/include/RLMUtil.hpp:137-167 | a normal timestamp survives the round trip exactly when its date is between the clamps or it is what a clamp produces; which ones those are |
| Timestamps.LowerClampLoses | Example/Pods/Realm/include/RLMUtil.hpp:151-155 | every number of whole seconds in the lowest two epoch shifts comes back as the least timestamp |
| Timestamps.DateRoundTrip | Example/Pods/Realm/include/RLMUtil.hpp:137-167 | an unclamped date comes back less than a nanosecond nearer to the reference date |
| ListRanges.List.ReplaceSubrange | Example/Pods/RealmSwift/RealmSwift/List.swift:493-502 | a range inside the list is replaced by the new elements; any other throws, and what that leaves |
| ListRanges.List.ReplaceClosedSubrange | Example/Pods/RealmSwift/RealmSwift/List.swift:663-667 | the closed-range form, inserting front to back, does the same |
| ListRanges.List.RemoveSubrange | Example/Pods/RealmSwift/RealmSwift/List.swift:622-627 | removes the range, or throws after removing what lies between its start and the end |
| ListRanges.List.InsertContentsOf | Example/Pods/RealmSwift/RealmSwift/List.swift:609-615 | inserts the elements in order at a valid index, and throws untouched at another |
| ListRanges.List.RemoveFirst | Example/Pods/RealmSwift/RealmSwift/List.swift:574-584 | drops the first elements; throws for too many, traps for a negative count |
| ListRanges.List.RemoveLast | Example/Pods/RealmSwift/RealmSwift/List.swift:592-602 | drops the last elements; throws for too many, traps for a negative count |
| ListRanges.SpliceBack | Example/Pods/RealmSwift/RealmSwift/List.swift:493-502 | putting back what was there undoes a replacement |
| ObservationChain.ObservationInfo.ForEach | Example/Pods/Realm/include/RLMObservation.hpp:115-130 | from any node the walk ends; it calls the function back to the head, then on to the tail, once for every node of the chain and for no other |
| ObservationChain.WalkMeetsAll | Example/Pods/Realm/include/RLMObservation.hpp:115-130 | wherever it starts, it meets every element exactly as often as the chain has it |
| ObservationChain.WalkMeetsOnce | Example/Pods/Realm/include/RLMObservation.hpp:115-130 | in a linked chain no node is met twice |

## Left out

- ObjectTable.Table.SetPropertyValueImpl: does not model link and list properties, which refer to other tables.
- DeviceStore.RealmHelper.GetDevicesHistory: does not model the order of the answer, which follows Realm's collation of names.
- Connectivity.PeerConnectivity.GetHistoryDisconnectedPeers: returns one order of the answer; the order of a Swift set is unspecified.
- ListRanges.List.ReplaceSubrange: new elements are values, not a live slice of the same list.
- ObservationChain.ObservationInfo.ForEach: the function called does not change the chain; retaining the current owner is not modelled.
- KeyedLinks.AssignInMigration: says what is left when assigning goes through; for single elements CreationLaws says when they do.
- The filters for nearby devices that are not connected and for one device being connected, which would only add easy members.
- The uuid and connection time of devices, which no code compares, and the delegate's update notifications, which change no state.
- The encoding of containers; a packet that does not decode is one that is lost.
- Discovery, encryption, time-outs and delays of the peer-to-peer framework; advertising and browsing switches; streams and resources.
- Link and list properties inside created objects, linking objects, key-value observation hooks, the sync-enabled branches of create, and schema, migration and notifier code without a visible body.
- The merging of rows that set_unique performs on a conflict: create never causes one.
- The mutators of index sets, whose bodies are not part of this model, and the offsets and counts kept in each chunk.
- Rounding of floating-point dates; NaN values in cells.
- The example application, thin wrappers, option sets, credentials and error enumerations.
