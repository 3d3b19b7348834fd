# A verified model of the group relay

The repository is a Nostr relay for NIP-29 groups. This project models its stateful
parts in Dafny and proves what they promise. `dafny verify dfyconfig.toml` checks all of it.

**Groups.** A group has members with roles, pending join requests, invites and access
flags. Signed events change it in place, tag by tag, and are undone when a check fails
afterwards; accepted events also emit store commands, from which a restart rebuilds the group.

- `Nostr`, `Text`: keys, tags, events, trimming. Signatures are abstract.
- `Metadata`: applying, printing and reading back metadata.
- `GroupModel`: what every event means for one group, as functions on a value.
  `GroupLaws`: what each of them keeps. `Authority`: who gets in, out, up and down.
- `Wording`: what role names, numbers and `p` tags say, on their letters. `Edits`, `Acceptance`,
  `Effects`: which events are accepted and what they do, read off the event's tags and the group's
  flags and members. `Creation`: the same for 9007, and for events no group answers.
- `Printing`: the 39000/39001/39002 events, and the loader that folds them.
  `Startup`: what the loader makes of them together with state events others signed.
- `World`, `WorldLaws`: one group with its store, over runs that mix events, what others store, print
  or delete under its name, and restarts.
- `InviteLaws`, `Conservation`: invites across restarts, and within one live run.
- `GroupObject` (`Group.dfy`): the class whose methods do all this in place, each tied to its function.
- `Relay`, `RelayLaws`, `RelayObject`: the map of all groups, creation, deletion, dispatch,
  and the class that holds the map. `RelayWorlds`: what the relay publishes about every id, and
  each group's life as a run of its own world. `Reload`: a restart of the whole relay, and what it
  makes of deleted groups. `Untidy`: what events that name two groups can do.

**Around the groups.**

- `Newest`, `ReadIndex`, `Paging`, `PageWalk`, `Bootstrap`: the read index, the first answer it gives
  about a group, and the paged message walk.
- `Settings`, `SettingsLaws`, `FlatLaws`, `YamlLines`: the settings file as the console rewrites and reads it.
- `Compaction`: the database file swap, a crash possible between any two operations.
- `RateLimit`, `Connections`, `Base64`: the two limiters and the header decoder.
- `Discovery`, `Retention`: which kinds somebody has stored, page by page; pruning and wiping them.
- `Sorting`: the stable sort the others rely on.

Where the source updates something in place the model is a class (or a method with the
source's loops), proved against a function; the laws are lemmas about the functions.

Some expectations turn out to hold only under a condition. Each is stated as an
if-and-only-if, with the condition a caller can check:

- a restart restores members and admins exactly when the 39001s and 39002s that others have
  stored list nobody new, because the loader does not ask who signed them
  (`RestartRestoresMembersIff`; a member can make itself admin that way, `MemberPromotesItself`);
  every order of reading restores the metadata exactly when their tags tell nothing new
  (`MetadataComesBackIff`);
- a restart leaves somebody admin exactly when the admins last published, or those the claims
  name, are not empty (`RestartLeavesAdminIff`). While nobody else prints or deletes under the
  group's name that always holds (`UndisturbedKeepsAdmins`); a 9007 that names a managed group in
  `d`, and then a 9008 of what it made, erase everything published about that group (`DeletionErases`);
- a whole restart has a group under an id exactly when something is published about it or
  somebody has a state event stored that names it in `d` (`ManagedAfterRestartIff`), so a deleted group
  comes back at a restart exactly when somebody has stored such a claim (`DeletedComesBackIff`),
  which anybody may do (`ClaimRevives`);
- a restart after a 9006 brings the right admins back exactly when the event changed no
  named member's admin standing, because 9006 prints no 39001 (`RestartAfterSetRoles`);
- a refusal leaves a trace, without the invariant, in exactly two ways (`WhenARefusalLeavesATrace`);
- replay counts a redemption exactly when the 9021 was not stored before (`RepeatedJoinIsForgotten`),
  and an invite's limits come back exactly when its 9009 was made since limits apply or states
  them itself (`LimitsComeBackIff`);
- a deletion is undone by the next event exactly when that is an admitted 9005 or 9008 by an editor
  of the group that answers it which reaches every tombstone (`BuriedStaysBuriedIff`), and by no
  run of tidy events up to a restart (`DeletedStaysDeleted`): tidy means at most one `h` tag, a 9007
  that names the same group whichever way it is read, and a 9008 without a `d` tag. A 9007 takes its key from
  `h` but its id from whichever of `h` and `d` comes first (`UntidyCreationUnburies`), and a
  9008 that carries another group's id in `d` is deleted along with that group (`ForeignDUnburies`);
- the published lists of a group stay accurate exactly when no group filed under another key
  prints its id and other people, and no 9006 of its own changes a standing (`AccurateAfterIff`).
  Where groups are filed under their own ids the only event that can do the first is a 9007
  (`TakeoverIsTheOnlyMisprint`); anybody may send it, and a restart then hands the group to its
  sender (`CreationTakesOver`, `RestartHandsOver`). Over tidy runs it cannot happen (`ListsStayAccurate`);
- the list the read index keeps equals a rebuild's exactly when the newest of what is stored have
  all been told to it and the newest of what it was told are still stored (`LiveEqualsRebuildIff`):
  what is stored before a group is managed never is (`UnindexedIsMissed`), nor is an event
  under the second group it names (`SecondNameIsNotIndexed`);
- discovery finds everything exactly when there are no more than 100,000 events and no multiple of
  500 falls inside a second, counting from the newest (`FoundAllIff`). A page that splits a second
  shifts the next, so what may be missed is settled page by page: what is left before a page depends
  on the seconds alone (those with 500 strictly newer ones left before the page above), and events, all
  of a kind for one, may be missed together exactly when before every page each of them that is left
  has 500 others left that are no older (`MayMissIff`, `KindMayBeMissedIff`);
- a page walk misses nothing exactly when no page boundary falls between two messages of
  one second, and ends exactly when no message has second zero (`WalkIsCompleteIff`, `WalkEndsIff`);
  a first answer continued by such a walk also needs to have left out none of its last second (`BootstrapIsCompleteIff`);
- waiting `retry_after` alone suffices exactly when less than a second was left (`WaitingAsToldIff`).

Other things found on the way: a 39001 or 39002 that is the first event seen at startup
leaves one stray `p` tag among the unknown tags, and the `original_relay` tag the relay
prints itself becomes an unknown tag when read back. Neither touches a metadata field.

## Model

| member | source | states |
|---|---|---|
| Metadata.OverlayStep | src/group.rs:193-324 | writing tag by tag equals collecting the last value per field and laying it over |
| Metadata.ApplyTwice | src/groups.rs:342-351 | applying an event twice in a row, as the loader does, equals applying it once |
| Metadata.EditOfPrinted | src/group.rs:1864-1940 | exactly which values and flags a printed 39000 carries, whatever order its unknown tags come in |
| Metadata.RestartClosure | src/group.rs:569-596 | reloading a printed 39000 into a fresh group keeps every field but restricted and hidden, which only tighten, by the stated formulas |
| Metadata.SecondRestart | src/group.rs:1544-1548 | a second restart changes nothing |
| Metadata.WhenAnEditLowers | src/group.rs:193-324 | restricted falls in one edit exactly by `open` without `restricted` next to a `private` or `public`, hidden exactly by `public` without `hidden` when the last of `private` and `public` is `public` or `restricted` stands there too |
| Metadata.FlagsFallOnlyWhenOpened | src/group.rs:1041-1053 | over any run of edits restricted falls only with an `open` tag, hidden only with a `public` one |
| Metadata.UnknownIsLastWriter | src/group.rs:193-324 | over any run of edits the unknown tags are the last-writer-wins map of all unknown tags applied |
| Wording.RoleIs | src/group.rs:350-366 | a role string is Admin or Member exactly when, between blanks, it spells that word in any cases (or is all blank: Member), and otherwise Custom of what it spells in small letters |
| Wording.NamedMean | src/group.rs:398-427 | the keys a list of tags names are those of its well-formed `p` tags, and each has the roles that the last such tag about it spells, or plain membership if it spells none |
| Wording.ParsedIff | src/group.rs:1450-1470 | a tag's number is read exactly when it is a decimal numeral within bounds, leading zeros and one plus sign allowed |
| Edits.ApplyFollows | src/group.rs:193-324 | from the tags alone: each text is the last one its tags carry, each switch follows the last of its two tags, the two implied flags follow which tags occur, of each kind the relay does not read the last tag is kept, and a forced relay ends neither private nor hidden |
| GroupLaws.AddingMeans | src/group.rs:863-897 | after an accepted 9000 exactly the old and the named keys are members, each named key with the roles last given it |
| GroupLaws.AddRefusedIff | src/group.rs:863-897 | a 9000 is refused exactly when some prefix would demote the only admin of that moment |
| GroupLaws.RemovingMeans | src/group.rs:954-1039 | the 9001 walk stops exactly on a malformed tag or the only admin, and otherwise removes exactly the named keys and notes whether an admin went |
| GroupLaws.RemoveAcceptedIff | src/group.rs:954-1039 | an entitled 9001 is accepted exactly when all tags parse and an admin is left |
| GroupLaws.ChecksPassIff | src/group.rs:1072-1143 | the 9006 checks pass exactly when every tag parses and none demotes the only admin |
| GroupLaws.HandleLaws | src/group.rs:938-952 | every event keeps an admin, keeps members and join requests disjoint, and a refused one leaves the group unchanged |
| GroupLaws.WhenARefusalLeavesATrace | src/group.rs:1476-1497 | in any state at all, a refused event changes the group in exactly two named situations |
| Acceptance.ContentAcceptedIff | src/group.rs:1277-1326 | who may post: content is accepted exactly when its sender is the relay or the group is not closed or the sender is a member, and is admin in a broadcast, and is a member of a restricted group |
| Acceptance.EditAcceptedIff | src/group.rs:1041-1053 | a 9002 is accepted exactly from an admin or the relay |
| Acceptance.InviteAcceptedIff | src/group.rs:1385-1445 | a 9009 is accepted exactly from an admin or the relay whose first `code` tag carries sixteen characters or more that no invite has |
| Acceptance.PutAcceptedIff | src/group.rs:814-897 | a 9000 is accepted exactly from an admin or the relay when no tag takes the role from the only admin that the tags before it leave |
| Acceptance.RemovalAcceptedIff | src/group.rs:954-1039 | a 9001 is accepted exactly from an admin or the relay when every `p` tag names a key and some admin is not named |
| Acceptance.RolesAcceptedIff | src/group.rs:1072-1143 | a 9006 is accepted exactly from an admin or the relay when every `p` tag names a key, none about the only admin lacks the admin role, and somebody is admin by the last word on each |
| Acceptance.DeletionAcceptedIff | src/group.rs:753-812 | a 9005 is accepted exactly from an admin or the relay when some `e` tag names an id |
| Acceptance.JoinAcceptedIff | src/group.rs:1145-1273 | a 9021 is accepted exactly from who is not a member |
| Acceptance.LeaveAcceptedIff | src/group.rs:1476-1528 | a 9022 is accepted from everybody but the only admin |
| Effects.PutMeans | src/group.rs:863-897 | after an accepted 9000 exactly the old and the named keys are members, each named one with the roles the last tag about it spells, none of them waiting, nothing else changed |
| Effects.RolesMean | src/group.rs:1085-1116 | after an accepted 9006 the members are the same, each named one with the roles the last tag about it spells, nothing else changed |
| Effects.RolesFollowAdmin | src/group.rs:350-366 | who is named by such an event is admin afterwards exactly when the last tag about it has a role string that spells `admin` |
| Effects.RemovalMeans | src/group.rs:954-1039 | after an accepted 9001 exactly the named keys are gone, nothing else changed |
| Effects.EditMeans | src/groups.rs:770-804 | after an accepted 9002 the metadata is what the tags say, on a forced relay neither private nor hidden, and is printed |
| Effects.DeletionMeans | src/group.rs:753-812 | after an accepted 9005 exactly the invites made by the named events are gone, and what is deleted is what it names under the group's `h` |
| Effects.InviteMeans | src/group.rs:1385-1474 | after an accepted 9009 there is one unused invite more, for plain members, under the code of the first `code` tag, that works until the number in the first `expiration` tag or for thirty days, and as often as the first `max_uses` tag says, or a hundred times, or once |
| Effects.NobodyJoinsLate | src/group.rs:483-498 | however the group lives after an accepted 9009, while its invite is there no 9021 later than its tags say gets anybody into the closed group by that code: it waits |
| Effects.ReplayedInviteMeans | src/group.rs:1635-1666 | replaying a 9009 makes the invite its tags describe, with the roles its `role` tags spell and no limits but its own if it was made before limits apply |
| Effects.JoinMeans | src/group.rs:1145-1273 | a 9021 lets its sender in as a plain member of an open group, on the invite's terms by a code that is neither late nor used up, which then counts one use more, and otherwise makes it wait |
| Effects.LeaveMeans | src/group.rs:1476-1528 | an accepted 9022 takes exactly its sender out of the members and of those who wait |
| Effects.ContentMeans | src/group.rs:1305-1322 | accepted content makes its sender a plain member of an open group and changes nothing else |
| Effects.AcceptedIsStored | src/group.rs:1329-1383 | every accepted event is stored but a stranger's 9022; only a 9005 deletes; metadata is printed by a 9002, roles by a 9002 or 9006, and 9000s exactly when somebody lets itself in |
| Effects.PutEventMeans | src/group.rs:1742-1768 | a 9000 the relay signs about a member reads back as one that makes exactly that member an admin or a plain member, as it is, of that group |
| Effects.RoleListMeans | src/group.rs:1942-1969 | the 39003 names its group in `d` and offers the roles admin, member and a nameless one |
| Authority.AcceptedIsByEditor | src/group.rs:1972-2010 | a 9000, 9001, 9002, 9005, 9006 or 9009 is accepted only from an admin or the relay |
| Authority.WaysIn | src/group.rs:1145-1326 | over all events, somebody becomes a member exactly by an accepted 9000 naming it, its own 9021 into an open group or with a usable invite, or its own content in an open group |
| Authority.WaysOut | src/group.rs:954-1528 | a member leaves exactly by an accepted 9001 naming it or its own accepted 9022 |
| Authority.WaysUp | src/group.rs:814-1273 | somebody becomes admin exactly by an accepted 9000 or 9006 whose last word on it says so, or by an invite entry with that role |
| Authority.WaysDown | src/group.rs:814-1528 | an admin stops being one exactly by an accepted 9000 or 9006 whose last word on it says so, or by leaving the group |
| Conservation.HandleConserves | src/group.rs:1145-1273 | every event keeps the account of who was admitted by which invite |
| Conservation.RunConserves | src/group.rs:487-524 | over any run each invite's uses equal the keys it admitted, within max_uses, at most one when single-use, redeemed_by set exactly then, and none after expiry |
| Printing.ListsRebuildMembers | src/group.rs:1550-1609 | loading the 39001 and the 39002 in either order rebuilds exactly the member keys and admins they list |
| Startup.StartupMembers | src/groups.rs:333-365 | startup from the three state events and any claims of others, in any order with repetitions: the members are the listed and the claimed keys, the admins the listed and the claimed admins |
| Startup.MembersComeBackIff | src/groups.rs:307-365 | members and admins come back exactly when the claims name no non-member and promote no non-admin |
| Startup.MetadataComesBackIff | src/groups.rs:342-351 | the metadata is that of the published 39000 in every reading order exactly when the claims tell nothing new, and otherwise some order gives other metadata |
| World.SortingGivesReplayOrder | src/groups.rs:398-422 | sorting whatever the query returned puts each stored 9007, 9009, 9021 once, invites first, and of each of the two oldest first |
| WorldLaws.JoinRequestRecords | src/group.rs:1329-1383 | what an accepted 9021 emits keeps an accurate 39001 and 39002 accurate and stores the request |
| WorldLaws.RemoveUserRecords | src/group.rs:1007-1039 | a 9001 reprints 39001 only when an admin went, and still leaves both lists accurate |
| WorldLaws.RestartRestoresMembersIff | src/groups.rs:307-365 | in a group whose lists are accurate, a restart restores members and admins exactly when the stored state events of others list nobody new |
| WorldLaws.MemberPromotesItself | src/groups_event_processor.rs:779-786 | the counterexample: a plain member's own 39001 is stored as content, changes nobody's standing, and makes it admin at the next restart that reads it |
| WorldLaws.RunStaysInSync | src/group.rs:814-861 | over every run from creation without 9006 in which nobody else prints or deletes under the name and restarts read harmless claims only, the last 39002 is the member keys and the last 39001 the admins |
| WorldLaws.RestartRebuilds | src/groups.rs:300-452 | a restart from such a state on such claims keeps id, scope, member keys, admins and the published metadata |
| WorldLaws.RunKeepsInvariant | src/group.rs:702-726 | over every run from creation, 9006, restarts on any claims, and others printing and deleting under the name included, there is an admin and members and join requests are disjoint, if every restart leaves an admin |
| WorldLaws.RestartLeavesAdminIff | src/groups.rs:333-365 | a restart leaves the group with an admin exactly when the admins last published together with those the claims name are not empty |
| WorldLaws.StepKeepsSound | src/group.rs:702-726 | a step from a sound state keeps it sound exactly when it is no restart or one that leaves an admin |
| WorldLaws.UndisturbedKeepsAdmins | src/group.rs:702-726 | over every run in which nobody else prints or deletes under the name, 9006 and restarts on any claims included, somebody is admin and somebody is published as admin, so every restart leaves one |
| WorldLaws.RestartAfterSetRoles | src/group.rs:1118-1125 | after a 9006 a restart restores the admins exactly when the event turned the admins of before into those and the claimed, no more and no less |
| WorldLaws.AssigningKeepsAdminsIff | src/group.rs:1085-1116 | a 9006 adds a given set to the admins exactly when each named member ends up with the standing that says so and nobody else was to be added |
| InviteLaws.ReplayMeans | src/group.rs:1611-1667 | replay in any admissible order counts each stored 9021 once and makes everybody wait who is not a member |
| InviteLaws.RunStaysRecorded | src/groups.rs:398-422 | over every run whose restarts leave an admin and first read an event that names the group first, whose stored requests are neither repeated nor deleted, and with others printing and deleting state events under the name as they may, the stored history accounts for all invites and pending requests |
| InviteLaws.SpentStaysSpent | src/group.rs:1447-1474 | for a 9009 made since limits apply, or one that states its own, a replayed invite has the same limits and no fewer uses, so what is usable after replay was usable before |
| InviteLaws.LimitsComeBackIff | src/group.rs:1611-1667 | an invite that got its limits when its 9009 came has the same limits after replay exactly when the 9009 was made since limits apply or states every limit itself |
| InviteLaws.RestartRevivesNothing | src/group.rs:447-474 | at the end of any such run a restart revives no spent invite made since limits apply, or with limits of its own, and forgets no pending request of a non-member |
| InviteLaws.RestartIsDeterminate | src/groups.rs:367-422 | members, roles, join requests and invites after a restart do not depend on the order events come out of the store, whatever the claims; on harmless claims neither do id and metadata |
| InviteLaws.RequestsComeBack | src/group.rs:1611-1633 | every live join request is pending after replay unless its sender is a member |
| InviteLaws.RepeatedJoinIsForgotten | src/group.rs:1611-1633 | replay counts a redemption exactly when its 9021 was not stored before |
| GroupObject.Group.constructor | src/group.rs:688-700 | a new group has no members and fresh metadata |
| GroupObject.Group.ApplyTags | src/group.rs:193-324 | in place, what the metadata function says |
| GroupObject.Group.ReplaceUnknown | src/group.rs:300-324 | unknown tags of the same kind are replaced, one per kind stays |
| GroupObject.Group.GenerateMembersEvent | src/group.rs:1818-1837 | the 39002 lists each member key once, in some order |
| GroupObject.Group.GenerateAdminsEvent | src/group.rs:1770-1816 | the 39001 lists each admin once; none can be made without an admin |
| GroupObject.Group.AddMembers | src/group.rs:863-897 | in place with rollback, what the 9000 walk means |
| GroupObject.Group.AddMembersFromEvent | src/group.rs:814-861 | state and answer of a 9000 |
| GroupObject.Group.RemoveMembers | src/group.rs:954-1039 | state and answer of a 9001, with snapshot and rollback |
| GroupObject.Group.SetMetadata | src/group.rs:1041-1070 | state and answer of a 9002 |
| GroupObject.Group.DeleteEventRequest | src/group.rs:753-812 | state and answer of a 9005; the deletion is confined to this group's `h` |
| GroupObject.Group.SetRolesFromEvent | src/group.rs:1072-1143 | state and answer of a 9006, with rollback |
| GroupObject.Group.CreateInviteFromEvent | src/group.rs:1385-1445 | state and answer of a 9009 |
| GroupObject.Group.JoinRequestFromEvent | src/group.rs:1145-1273 | state and answer of a 9021 |
| GroupObject.Group.LeaveRequestFromEvent | src/group.rs:1476-1528 | state and answer of a 9022 |
| GroupObject.Group.HandleGroupContent | src/group.rs:1277-1326 | state and answer of content, auto-join included |
| GroupObject.Group.LoadMembersFromEvent | src/group.rs:1550-1609 | in place, how a stored list is loaded |
| GroupObject.Group.Startup | src/groups.rs:333-422 | the loader's two passes build the group the restart function says |
| GroupObject.Group.HandleEvent | src/groups.rs:542-571 | state and answer of any event for the group, access checked first |
| RelayObject.Groups.MakeGroup | src/groups.rs:634-676 | a new group has its creator as admin and everybody who wrote before as member |
| RelayObject.Groups.HandleGroupCreate | src/groups.rs:588-706 | map and answer of a 9007, with each refusal; the 9000s the relay signed under the id count among what is stored |
| RelayObject.Groups.HandleDeleteGroup | src/groups.rs:884-904 | map and answer of a 9008 |
| RelayObject.Groups.ToGroup | src/groups.rs:542-571 | the named group answers in place, all others stay |
| RelayObject.Groups.HandleEvent | src/groups_event_processor.rs:686-803 | one event: exactly the dispatch function, the unmanaged branch included; all that may turn an event away before the dispatch, and the relay-claim branch that stops there, are the one answer `admitted` |
| Creation.CreationAcceptedIff | src/groups.rs:588-706 | a 9007 makes a group exactly when its first `h` names none that is managed or has a stored 9008, its first `h` or `d` gives a non-empty id, and nothing is stored there, or the relay sends it |
| Creation.CreationMeans | src/groups.rs:656-692 | the group it makes: under that name with that id, its sender the only admin, who wrote there before a plain member, and for metadata what the tags make of a private, restricted and closed group named after its id |
| Creation.UnmanagedIsStoredIff | src/groups_event_processor.rs:686-702 | an event for no managed group is stored as it is exactly unless it is a request, a 9008 without an `h`, or a state event with one |
| Creation.ManagedAnswers | src/groups_event_processor.rs:704-796 | in a managed group a 9007 is refused, a 9008 of an editor removes it, requests and whatever else carries an `h` and is no free kind are answered by the group, and the rest is stored |
| RelayLaws.StepStores | src/group.rs:728-812 | of the events others signed, the store after an event is what it was, less exactly what a 9005 or 9008 removes, plus the event |
| RelayLaws.DeletionIsLocal | src/group.rs:728-812 | of the events others signed, one disappears only by a 9005 or 9008 of an editor, and only if it carries that group's id in `h`, or in `d` for a 9008 |
| RelayLaws.StepPuts | src/group.rs:1715-1768 | of the 9000s the relay signed, an event leaves what there was plus one for each member of a group that it prints anew, less exactly those under that group's id which a 9005 names or a 9008 takes |
| RelayLaws.PutDeletionIsLocal | src/group.rs:728-812 | a 9000 the relay signed disappears only by a 9005 that names it or a 9008, of an editor of the group whose id it carries |
| RelayLaws.StepGroups | src/groups_event_processor.rs:686-803 | an event makes, removes or changes at most the one group it names |
| RelayLaws.EveryGroupStaysSound | src/groups.rs:656-692 | from an empty relay, over any events whatever, every group keeps the invariant |
| RelayLaws.RunStaysOrderly | src/groups.rs:588-633 | over tidy runs groups are filed under their own id, deleted ids are unused, and only managed groups have stored invites and requests |
| RelayLaws.BuriedStaysBuriedIff | src/group.rs:728-812 | the next event undoes a deletion exactly when it is an admitted 9005 or 9008 in that scope from an editor of the group that answers, every stored tombstone carries that group's id (and is named by a 9005), and it is no tombstone itself |
| RelayLaws.AcceptedDeletionBuries | src/groups.rs:884-904 | after an accepted 9008 the group is gone and its tombstone, stored last, remains |
| RelayLaws.DeletedStaysDeleted | src/groups.rs:609-633 | after an accepted 9008 no later run of tidy events puts the group back, up to a restart |
| RelayWorlds.HandlePrints | src/group.rs:1770-1837 | whatever event a group answers, it prints under its own id only, and lists exactly the members and admins it is left with |
| RelayWorlds.OwnListsAccurateIff | src/group.rs:1118-1125 | a group's own accepted event leaves its published lists accurate unless it is a 9006 that changes a standing, and a refused one leaves the group as it was |
| RelayWorlds.AccurateAfterIff | src/groups.rs:678-705 | whatever event comes, the lists of a group filed under its own id stay accurate exactly when no other key prints that id with other people and no 9006 of its own changes a standing |
| RelayWorlds.TakeoverIsTheOnlyMisprint | src/groups.rs:588-706 | with groups filed under their own ids, another group's lists go wrong exactly by an admissible 9007 that calls a new key by that group's id and brings other people |
| RelayWorlds.EveryArrivalIsAGroupStep | src/groups_event_processor.rs:686-803 | any event whatever, for the group, another or none: what becomes of a group under its own id, its publications and what the store holds about it is one step of its world |
| RelayWorlds.CreationStartsAGroup | src/groups.rs:678-705 | an accepted 9007 starts a group with everything published, as the run theorems assume |
| RelayWorlds.ListsStayAccurate | src/groups.rs:678-705 | from an empty relay, over all tidy events but 9006, for every group the last 39002 about its id lists exactly the members and the last 39001 the admins |
| RelayWorlds.GroupLifeIsARun | src/groups_event_processor.rs:686-803 | over any run of the relay the life of each group made under its own id, from its 9007 on, is a run of its world, so every theorem about such runs applies to it |
| RelayWorlds.TidyLifeIsUndisturbed | src/groups.rs:588-706 | over tidy runs every group is made under its own id with everything published, and nobody else ever prints or deletes under its name |
| RelayWorlds.OthersKeepJoins | src/group.rs:728-812 | events the group does not answer leave its stored invites and join requests alone, unless a deleted group's id is in the `d` of one |
| RelayWorlds.NoGroupRevivesInvites | src/groups.rs:367-422 | for every group of a tidy relay run whose stored requests are neither repeated nor deleted, a restart revives no spent invite made since limits apply, or with limits of its own, and forgets no pending request of a non-member |
| Reload.LoadRelayIs | src/groups.rs:300-365 | folding all state events of all ids at once makes a group for exactly the ids named, each the one startup makes of the events about it alone |
| Reload.ManagedAfterRestartIff | src/groups.rs:300-365 | after a restart there is a group under an id exactly when something is published about it or somebody has a stored state event that names it in `d` |
| Reload.ReloadIsRestart | src/groups.rs:300-422 | for a group that was managed, the whole restart is a restart step of its own world |
| Reload.DeletedComesBackIff | src/groups.rs:300-365 | over any tidy run after an accepted 9008, the group is gone, and a restart puts it back exactly when somebody has a stored state event that names it in `d` |
| Reload.ClaimRevives | src/groups_event_processor.rs:788-796 | the counterexample: anybody's 39001 that names a deleted group in `d`, with no `h`, is stored, and a restart makes that group with its sender as an admin |
| Untidy.UntidyCreationUnburies | src/group.rs:569-596 | the counterexample: a 9007 with `d` before `h`, once deleted, lets a deleted group be made again |
| Untidy.ForeignDUnburies | src/group.rs:728-751 | the counterexample: a 9008 with another group's id in `d` loses its tombstone when that group is deleted, and anybody may make the first one again |
| Untidy.CreationTakesOver | src/groups.rs:588-706 | the counterexample: a 9007 with `d` of a managed group and an unused `h` leaves that group alone and prints its sender as its only member and admin |
| Untidy.RestartHandsOver | src/groups.rs:333-365 | a restart that reads only what the relay published then makes that sender the only member and admin |
| Untidy.DeletionErases | src/group.rs:728-751 | the counterexample: if that sender deletes what it has made, everything published or stored under the managed group's id goes, and the group stays |
| Untidy.RestartLosesAdmins | src/groups.rs:333-365 | after that a restart leaves the group with an admin exactly when some claim names one |
| Untidy.SignedPutsStopCreation | src/groups.rs:626-654 | the 9000s the relay signs when it makes a group stop a second 9007 whose `h` is the `d` of the first, unless the relay sends it |
| Newest.NewestIsUnique | src/obelisk_index.rs:511-517 | there is one newest-first list of the first n of a set when ids identify events |
| Newest.LaterComesFirst | src/obelisk_index.rs:511-517 | the later second comes first, and of one second the larger id, by its first differing character |
| ReadIndex.AddRecentKeepsNewest | src/obelisk_index.rs:461-468 | adding an event, new or known, keeps the list the newest n |
| ReadIndex.FoldKeepsNewest | src/obelisk_index.rs:461-468 | after any events in any order with repetitions the list is the newest n of all |
| ReadIndex.FoldKeepsLatest | src/obelisk_index.rs:448-459 | after any state events there is one per kind, ascending, each the newest and of equals the last that came |
| ReadIndex.RunKeepsAgreement | src/obelisk_index.rs:112-223 | over any run of saves, unannounced saves, deletions and rebuilds the list is the newest of what the index has been told, the state events the latest of each kind told |
| ReadIndex.LiveEqualsRebuildIff | src/obelisk_index.rs:135-223 | after any such run the live list equals what a rebuild folds from its bounded query exactly when the stored events of rank below the cap have all been told, and those told are still stored |
| ReadIndex.LiveEqualsRebuild | src/obelisk_index.rs:135-223 | in particular when since the last rebuild nothing was deleted and nothing stored unannounced |
| ReadIndex.UnindexedIsMissed | src/groups_event_processor.rs:686-702 | the counterexample: a message stored before its group was managed is missing from the list that a later 9007 starts, and a rebuild finds it |
| ReadIndex.SecondNameIsNotIndexed | src/obelisk_index.rs:207-223 | an event with two `h` tags leaves the entry of the second name as it was |
| ReadIndex.LiveStatesEqualRebuildIff | src/obelisk_index.rs:447-459 | where seconds tell events of a kind apart, the state events kept equal a rebuild's exactly when neither side has a newer one of some kind |
| ReadIndex.SameSecondKeepsLast | src/obelisk_index.rs:447-459 | of two state events of one kind and second the one told last is kept |
| ReadIndex.HighWaterIsExact | src/obelisk_index.rs:447-462 | high water bounds every event held and is the second of one that was seen |
| ReadIndex.IndexedGroup.LoadGroup | src/obelisk_index.rs:128-174 | the fold of the two queries' answers |
| ReadIndex.ObeliskIndex.ApplySavedEvent | src/obelisk_index.rs:207-223 | only the entry of the named group changes, and only for indexed kinds |
| ReadIndex.RouteMeans | src/obelisk_index.rs:207-223 | a saved state event goes to the entry its first `d` names, one of seven other kinds to that of its first `h`, and nothing else anywhere |
| Paging.WhatReadersSee | src/group.rs:2059-2134 | what a reader of a group does not see: hidden state events and a private group's invites, exactly |
| Paging.WhatOutsidersSee | src/group.rs:2059-2134 | whoever may not read a group sees its own events and, unless it is hidden, its 39000, exactly; of an id without a group only the relay and its admins see anything |
| Paging.ReadersSeeMessages | src/obelisk_index.rs:415-443 | the messages of others in a managed group are shown to exactly those who may read it |
| Paging.StrangersSee | src/group.rs:2065-2091 | who has not authenticated sees exactly what a stranger sees, and is asked to for the rest |
| Paging.FilterDropsNothing | src/obelisk_index.rs:417-443 | once a group is readable the filter drops no kind 9 or 11 |
| Paging.MessagesForGroup | src/obelisk_index.rs:363-415 | a page for exactly the relay, its admins, the members, or anybody if the group is public: the sorted visible answer cut at the limit; its cursor is its last second |
| Paging.PageIsNewest | src/obelisk_index.rs:376-409 | a page is the newest of the stored messages up to the cursor |
| PageWalk.LaterIsOlder | src/obelisk_index.rs:389-409 | everything on a later page is older than every earlier cursor; cursors strictly decrease |
| PageWalk.NothingTwice | src/obelisk_index.rs:389-409 | no message is returned twice |
| PageWalk.WalkIsShort | src/obelisk_index.rs:389-409 | a walk has at most one page more than there are messages |
| PageWalk.WalkIsCompleteIff | src/obelisk_index.rs:376-409 | a finished walk returns every message exactly when no page boundary splits a second |
| PageWalk.DistinctSecondsAreComplete | src/obelisk_index.rs:376-409 | in particular when all seconds differ |
| PageWalk.WalkEndsIff | src/obelisk_index.rs:389-391 | a walk can be finished exactly when no message has second zero |
| Bootstrap.SummarizeGroup | src/obelisk_index.rs:255-300 | one group's first answer, for exactly those who may read it: its visible state events, then the first of its visible recent ones; the cursor is the last second of these |
| Bootstrap.BootstrapIsCompleteIff | src/obelisk_index.rs:241-313 | the first answer continued by the pages from its cursor gives every message exactly when it left out none of its last second and no page boundary below splits a second |
| Settings.UpsertRelayValue | src/admin.rs:1026-1065 | the loop rewrites every line of the key and drops what it owned, or inserts before `websocket:` |
| Settings.UpsertBlockValue | src/admin.rs:1074-1120 | the loops replace the first child line or insert one at the block's end |
| Settings.ReadYamlScalar | src/admin.rs:900-923 | the first value found, local file first |
| Settings.ReadBlockScalar | src/admin.rs:938-970 | the first value found inside the block, local file first |
| SettingsLaws.ReadAfterBlockWrite | src/admin.rs:1074-1120 | a block entry reads back as the cleaned value written |
| SettingsLaws.BlockWriteKeepsOthers | src/admin.rs:1074-1120 | every other entry of every block reads as before, with headers and `websocket:` at indent two or less |
| SettingsLaws.BlockLens | src/admin.rs:938-970 | both laws on the file's text, through joining and splitting lines |
| SettingsLaws.CleanIsIdentity | src/admin.rs:961-965 | a value without quotes or outer blanks is read back as it is, quoted or not |
| FlatLaws.OthersSurvive | src/admin.rs:1026-1065 | the lines in no block of the key survive, all and in order |
| FlatLaws.FlatWriteTwice | src/admin.rs:1026-1065 | with the key and `websocket:` at indent two or less a second identical write changes nothing |
| FlatLaws.NoOrphanIsLeft | src/admin.rs:1034-1051 | without blank lines inside the old block no child is left under the key |
| FlatLaws.FlatLens | src/admin.rs:900-923 | reading back, survival and idempotence on the file's text |
| YamlLines.LineReads | src/admin.rs:900-923 | a line with the key, a colon and a value, blanks anywhere around them and the value bare or in quotes of either kind, says that value |
| YamlLines.CommentReads | src/admin.rs:900-923 | a comment says nothing |
| YamlLines.FirstLineDecides | src/admin.rs:900-923 | the first line that says something of the key decides |
| YamlLines.FirstFileDecides | src/admin.rs:938-970 | the first file that has a value decides, and without one the default stands |
| YamlLines.EndsBlockIff | src/admin.rs:938-970 | a block ends exactly at a line with at most two blanks before something that is no comment |
| YamlLines.NewLinesGoBeforeWebsocket | src/admin.rs:1053-1062 | a setting, or the header of a block, that is not there yet goes right before the first `websocket:`, or at the end |
| Compaction.NothingIsLost | src/compaction.rs:463-559 | under any crashes, failures, restarts and requests, the data is complete in the live file or the backup, and attempts never outnumber requests |
| Compaction.BackupGoesLast | src/compaction.rs:546-557 | a backup goes only by moving back, or after the complete compacted file was opened again |
| Compaction.BackupStopsAttempts | src/compaction.rs:492-497 | no attempt copies or swaps while a backup is there |
| Compaction.Disk.CompactNow | src/compaction.rs:463-559 | the verdict, the files it leaves, and that every operation was a step of the protocol |
| Compaction.Disk.RunPending | src/compaction.rs:371-453 | the request is consumed before anything else is done |
| Compaction.AppendLog | src/compaction.rs:344-350 | the log keeps the last twenty entries |
| Compaction.LogIsTheNewest | src/compaction.rs:344-350 | the log is the last twenty of all ever appended |
| RateLimit.ObeliskHttpLimiter.Check | src/obelisk_api.rs:49-86 | answer and buckets of one call; a quota of zero admits without a record |
| RateLimit.AdmitsIff | src/obelisk_api.rs:63-85 | a call is granted exactly when fewer than the quota of grants lie in the last sixty seconds |
| RateLimit.GrantsAreSpread | src/obelisk_api.rs:63-85 | any quota plus one consecutive grants span more than sixty seconds |
| RateLimit.WaitingOneMoreSucceeds | src/obelisk_api.rs:70-81 | waiting one second more than told always succeeds |
| RateLimit.WaitingAsToldIff | src/obelisk_api.rs:70-81 | waiting just as told succeeds exactly when less than a second was left |
| Connections.ConnectionLimiter.TryAcquire | src/connection_limits.rs:90-115 | a permit, or the reason, exactly as the live permits reach the global cap or the address's; a refusal changes nothing |
| Connections.ConnectionLimiter.Release | src/connection_limits.rs:41-55 | one permit less; an address at zero leaves the map |
| Connections.RunKeepsAccounts | src/connection_limits.rs:41-115 | over every interleaving the total is the live permits and the sum over addresses, within both caps, and the map holds exactly the addresses with permits |
| Connections.DropsAreExact | src/connection_limits.rs:41-55 | no drop ever saturates or underflows |
| Base64.DecodeBase64 | src/obelisk_api.rs:274-297 | the loop computes the decoding, the buffer below two to the bits, no byte truncated |
| Base64.DecodeInverts | src/obelisk_api.rs:274-307 | decoding inverts the encodings of sections 4 and 5 of RFC 4648, padded or not, for every byte string |
| Base64.DecodeFailsIff | src/obelisk_api.rs:282-284 | decoding fails exactly on a foreign byte before any padding |
| Discovery.AuthorKindsInScope | src/groups.rs:1761-1814 | the kinds returned are exactly those of the events on the pages of one discovery, each page strictly below the last, up to the cap; never a kind that is not there, all of them when the seconds allow it, and else all but kinds that may be missed |
| Discovery.FoundAllIff | src/groups.rs:1761-1814 | whatever way ties are broken, everything is found exactly when there are at most 100,000 events and no second has fewer than a multiple of 500 events newer than it and more that are no older |
| Discovery.MayMissIff | src/groups.rs:1761-1814 | some discovery misses a whole set of events exactly when before every page each of the set that is left has 500 others left that are no older; what is left depends on the stored seconds alone |
| Discovery.KindMayBeMissedIff | src/groups.rs:1761-1814 | some discovery misses a kind exactly when before every page each event of that kind that is left has 500 of other kinds left that are no older |
| Discovery.DistinctSecondsAreDiscoverable | src/groups.rs:1761-1814 | events of distinct seconds are all found exactly when there are at most 100,000 |
| Discovery.OneSecondMissesAKind | src/groups.rs:1796-1803 | the counterexample: of more than 500 events of one second, each of its own kind, some kind is always missed |
| Retention.Database.PruneEvents | src/groups.rs:1597-1676 | exactly the unprotected events of the named kinds, key, scopes and time go on a real run and none on a dry one; both return their saturated number; before is after plus deleted; a bad key is refused; when the database fails part-way, what has gone is that of the scopes before |
| Retention.Database.DeleteUserEvents | src/groups.rs:1688-1755 | only that author's unprotected events in those scopes go, whole kinds at a time; before is after plus deleted; in the scopes done what stays is protected, not named, or of a kind that page bounds allow to be missed; with the database failing part-way |

## Left out

- `admin_remove_group_member` and the other console paths that change a group directly: not signed events; the first removes a member with no last-admin check.
- `Group.roles`, `created_at`, `updated_at`: derived or informational; rollback recomputes them.
- Roles of replayed invites, and custom roles across a restart: live invites grant Member, replay reads `role` tags, and 39001 names admins only; the restart theorems speak of member keys and admins.
- Exact replay of join requests: keys that left reappear, so only live requests being among the replayed ones is proved.
- Relay claims (kind 28934), block lists, whitelist tiers and rate limits ahead of the dispatch: one arbitrary answer, `admitted`.
- Deletions the storage layer makes for client-signed kind 5 events, and replacement of client-signed replaceable events: the map-level store loses events only by the relay's own delete commands. A restart may read any subset of the stored claims, so replaced ones are covered.
- Times of events the relay signs itself, and the ids of its 39000s to 39003s: of 9000s the map-level store keeps scope, group and id, the id being an unspecified function of what is hashed; of state events per id only the newest is kept.
- Invites and join requests in a whole restart: `Reload` loads the groups; the history is replayed per group, in its world.
- State events signed with the relay's own key but sent from outside: what is published is what groups print.
- RelayObject.Groups.HandleEvent: the relay-claim branch (kind 28934) is left out, and the admission checks before the dispatch are one answer, because neither reads or changes a group.
- RelayLaws.StepStores: speaks of events others signed; the relay's own 9000s are in `StepPuts`, its state events in `RelayWorlds`' publications, by id.
- RelayLaws.DeletionIsLocal: speaks of events others signed; `PutDeletionIsLocal` of the relay's own 9000s.
- `npub` and `nostr:` spellings of keys, upper-case hex, and lower-casing of non-ASCII role names: a key is 64 lower-case hex digits.
- The tag library's filing of `t` tags: an unspecified predicate, so the results hold whichever way it goes.
- Overflow of the expiry addition: modelled as wrapping at 64 bits, as in a release build.
- Concurrency of group creation between its check and its insertion: each event is one step.
- Bootstrap.SummarizeGroup: one group's part; the order of groups, the cap on their number, grouping by scope and the high-water cursor of the whole answer are glue around it, as are HTTP handlers and sessions.
- The one-second delay before a rebuild: a rebuild happens at some later moment, or never.
- Rebuilds drop the entries of unmanaged ids: the read-index runs follow one managed group.
- File sizes, free-space arithmetic, permissions and the lock file of the compaction: an abstract answer for "enough space", files as contents.
- Writing the settings and log files to disk, and quoting by `yaml_quote` of values with quotes or backslashes.
- Retention.Database.PruneEvents: the database fails between two scopes, not inside one deletion.
- Retention.Database.DeleteUserEvents: likewise; the scopes are given, where the source collects them from the map of groups.
- Base64.DecodeBase64: the shift by six and the bitwise or are written as multiplication by 64 and addition.
- Connections.ConnectionLimiter.TryAcquire: the count is unbounded, the source's is a machine word.
- Whitelist, pruner schedule, reports, web-of-trust, metrics, backups and the frontend.
