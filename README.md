# PennPals chat server: a verified model of the server state

PennPals is a chat service. Clients connect, pick nicknames, create public or invite-only
channels, join, leave, message, invite and kick. Its core is the `ServerModel`: an in-memory
table of channels (name to `Channel`, a mutable record of members, owner and privacy flag) and a
registry of connected users (connection id to nickname). Every client intent is one handler that
runs its checks in a fixed order, changes the state only when all of them pass, and returns a
`Broadcast` telling the transport what to send and to whom.

The project models that core in six modules:

- `Names` (`names.dfy`) covers name validity (`isValidName`) and the default nicknames "User0",
  "User1", ... that `generateUniqueNickname` hands out. It proves that the next default nickname
  is unused, valid and unique, and that the search for it terminates.
- `Protocol` (`protocol.dfy`) holds the values exchanged with the transport: `Command` (one variant
  per intent), the nine `ServerResponse` codes and `Broadcast`.
- `Channels` (`channel.dfy`) has the `Channel` class with `userList`, `owner` and a constant
  `isPrivate`, and its value view `ChannelInfo`.
- `ServerSpec` (`server_spec.dfy`) is the server as a state machine over values: one function per
  handler from the state before to the next state and the reply. It proves the properties of the
  protocol about those functions: the order of error checks, that errors change nothing, the
  cascades of rename and disconnect, and the two invariants (nicknames pairwise distinct; every
  channel's owner among its members) preserved by every handler.
- `Server` (`server_model.dfy`) has the `ServerModel` class. Its `channels` and `registeredUsers`
  fields are updated in place, and the `Channel` objects in the table are mutated through the
  class's methods as in the source. Each handler is proved to produce exactly the next state and
  reply of the matching `ServerSpec` function. The scans over the channel table in
  `deregisterUser` and `changeNickname` are loops with invariants.
- `Scenarios` (`scenarios.dfy`) states scenarios of the server's unit tests as lemmas over the
  handler functions, starting from the empty state.

The model follows the code throughout. Three behaviours of the code are worth stating, and only
the second contradicts a doc-comment:

- A disconnect notifies the remaining members of the user's channels, computed after the user is
  removed, so the departing user is not told.
- A rename collects its recipients only from channels. A sender who is in no channel gets an empty
  recipient set, although the doc-comment of `changeNickname` says the sender is included.
- Renaming to the nickname one already holds fails with `NAME_ALREADY_IN_USE`, since the sender is
  a user who already has that nickname.

The handler functions of `ServerSpec` carry no contracts of their own. What each one promises is
stated by its `*Outcome` lemma and the lemmas beside it.

## Model

| member | source | states |
|---|---|---|
| Names.IsLetterOrDigit | src/main/java/org/cis120/ServerModel.java:284 | The letter-or-digit test on one character, for the ASCII letters and digits |
| Names.ValidName | src/main/java/org/cis120/ServerModel.java:279-289 | The condition isValidName decides: non-empty, and every character a letter or digit |
| Names.IsValidName | src/main/java/org/cis120/ServerModel.java:279-289 | The character scan returns true exactly when the name is non-empty and every character is a letter or digit |
| Names.DecimalString | src/main/java/org/cis120/ServerModel.java:177 | The decimal text of the suffix is non-empty, all digits, and starts with '0' only for zero |
| Names.DecimalRoundTrip | src/main/java/org/cis120/ServerModel.java:177 | Reading the decimal text of n back gives n, so distinct suffixes give distinct nicknames |
| Names.DefaultName | src/main/java/org/cis120/ServerModel.java:177 | The nickname "User" followed by the decimal suffix; its properties are DefaultNameInjective and DefaultNameIsValid |
| Names.DefaultNameInjective | src/main/java/org/cis120/ServerModel.java:177 | Equal default nicknames have equal suffixes |
| Names.DefaultNameIsValid | src/main/java/org/cis120/ServerModel.java:177 | Every default nickname passes isValidName |
| Names.DefaultNamesBound | src/main/java/org/cis120/ServerModel.java:176-178 | If "User0" to "User(n-1)" are all taken, at least n names are registered, which bounds the do-while search |
| Names.NextDefaultNameProperties | src/main/java/org/cis120/ServerModel.java:172-180 | "User" plus the smallest free suffix is not registered, is a valid name, and is determined by the registered names |
| Channels.ChannelInfo.Initial | src/main/java/org/cis120/Channel.java:11-16 | A new channel's members are exactly the owner, so the owner is a member; privacy is as given |
| Channels.ChannelInfo.WithMember | src/main/java/org/cis120/Channel.java:34-36 | Adding a member adds that nickname and no other; owner and privacy are unchanged |
| Channels.ChannelInfo.WithoutMember | src/main/java/org/cis120/Channel.java:38-42 | Removing a member removes that nickname and no other; the owner is kept even when removed |
| Channels.ChannelInfo.WithOwner | src/main/java/org/cis120/Channel.java:26-28 | Setting the owner changes only the owner |
| Channels.WithMemberIdempotent | src/main/java/org/cis120/Channel.java:34-36 | Adding a member twice is the same as adding once; adding a present member changes nothing |
| Channels.WithoutAbsentMemberIsNoop | src/main/java/org/cis120/Channel.java:38-42 | Banning a nickname that is not a member changes nothing |
| Channels.WithoutUndoesWith | src/main/java/org/cis120/Channel.java:34-42 | Banning a nickname just added gives back the channel as it was |
| Channels.Channel.constructor | src/main/java/org/cis120/Channel.java:7-16 | The new object's state is the initial channel for that owner and privacy flag |
| Channels.Channel.SetOwner | src/main/java/org/cis120/Channel.java:26-28 | The object's state becomes the old state with the new owner |
| Channels.Channel.AddUser | src/main/java/org/cis120/Channel.java:34-36 | The object's state becomes the old state with the nickname added |
| Channels.Channel.BanUser | src/main/java/org/cis120/Channel.java:38-42 | The object's state becomes the old state with the nickname removed; privacy is a constant field |
| ServerSpec.Connect | src/main/java/org/cis120/ServerModel.java:155-162 | The registerUser step: bind the id with put semantics and reply Connected; its contract is ConnectOutcome |
| ServerSpec.ConnectOutcome | src/main/java/org/cis120/ServerModel.java:155-162 | Registering binds the id to the nickname, keeps every other binding and the channels, and replies Connected |
| ServerSpec.ConnectPreservesConsistency | src/main/java/org/cis120/ServerModel.java:155-180 | Registering a nickname nobody holds keeps nicknames distinct and owners among members |
| ServerSpec.Disconnect | src/main/java/org/cis120/ServerModel.java:200-219 | The deregisterUser step: departed table, id unbound, Disconnected to the departure recipients; its contract is DisconnectOutcome |
| ServerSpec.DisconnectOutcome | src/main/java/org/cis120/ServerModel.java:200-219 | After a disconnect, the id is unbound, other bindings are kept, the nickname is in no channel, every channel it owned is gone, every surviving channel is an old one with only the nickname removed, and it is not among the recipients |
| ServerSpec.DisconnectRecipients | src/main/java/org/cis120/ServerModel.java:206-215 | The recipients of a disconnect are everyone who shared a channel with the user, minus the user |
| ServerSpec.DisconnectDeletesOwnedChannels | src/main/java/org/cis120/ServerModel.java:206-215 | With owners among members, every channel the user owned is deleted, and no surviving channel is owned by them |
| ServerSpec.DisconnectPreservesConsistency | src/main/java/org/cis120/ServerModel.java:200-219 | A disconnect keeps nicknames distinct and owners among members |
| ServerSpec.Renamed | src/main/java/org/cis120/ServerModel.java:257-263 | In a channel holding the old nickname, the new one takes its place, as member and as owner; a channel without it is unchanged; privacy is kept |
| ServerSpec.Rebind | src/main/java/org/cis120/ServerModel.java:267 | The conditional replace changes the sender's binding only if it still holds the old nickname, and no other binding |
| ServerSpec.Rename | src/main/java/org/cis120/ServerModel.java:240-269 | The changeNickname step: the two checks in order, then the renamed table, the conditional rebind and Okay to the renamed memberships; its contract is RenameOutcome |
| ServerSpec.RenameOutcome | src/main/java/org/cis120/ServerModel.java:240-269 | INVALID_NAME exactly when the new name is invalid, then NAME_ALREADY_IN_USE exactly when it is registered; an error changes nothing; success keeps the channel names |
| ServerSpec.RenameEffect | src/main/java/org/cis120/ServerModel.java:254-268 | After a rename, every channel holding the old nickname holds the new one instead, with ownership following; other members are unchanged; channels without it are untouched; the sender's id maps to the new nickname |
| ServerSpec.RenameRecipientsAreSharers | src/main/java/org/cis120/ServerModel.java:254-268 | The recipients of a rename are those who shared a channel with the sender, under the new name, and no one if the sender shared no channel |
| ServerSpec.RenameOfIdleSenderHasNoRecipients | src/main/java/org/cis120/ServerModel.java:254-268 | A sender in no channel gets Okay with no recipients, itself included |
| ServerSpec.RenameToOwnNicknameFails | src/main/java/org/cis120/ServerModel.java:248-252 | Renaming to the nickname the sender already holds fails with NAME_ALREADY_IN_USE and changes nothing |
| ServerSpec.RenamePreservesConsistency | src/main/java/org/cis120/ServerModel.java:240-269 | A rename keeps nicknames distinct and owners among members |
| ServerSpec.Create | src/main/java/org/cis120/ServerModel.java:315-338 | The createChannel step; its contract is CreateOutcome |
| ServerSpec.CreateOutcome | src/main/java/org/cis120/ServerModel.java:315-338 | INVALID_NAME, then CHANNEL_ALREADY_EXISTS, each exactly when its check fails; success adds exactly one channel, owned by and holding only the sender, with the requested privacy, and replies Okay to the sender |
| ServerSpec.CreatePreservesConsistency | src/main/java/org/cis120/ServerModel.java:315-338 | Creating a channel keeps both invariants |
| ServerSpec.Join | src/main/java/org/cis120/ServerModel.java:359-374 | The joinChannel step; its contract is JoinOutcome |
| ServerSpec.JoinOutcome | src/main/java/org/cis120/ServerModel.java:359-374 | NO_SUCH_CHANNEL, then JOIN_PRIVATE_CHANNEL; success adds the sender and replies Names with the full new membership and the owner |
| ServerSpec.JoinPrivateChannelFailsForOwner | src/main/java/org/cis120/ServerModel.java:366-368 | Joining a private channel fails even for its owner |
| ServerSpec.JoinPreservesConsistency | src/main/java/org/cis120/ServerModel.java:359-374 | Joining keeps both invariants |
| ServerSpec.Send | src/main/java/org/cis120/ServerModel.java:393-406 | The sendMessage step; its contract is SendOutcome |
| ServerSpec.SendOutcome | src/main/java/org/cis120/ServerModel.java:393-406 | Sending never changes the state: NO_SUCH_CHANNEL, then USER_NOT_IN_CHANNEL, else Okay to the whole membership, sender included |
| ServerSpec.Leave | src/main/java/org/cis120/ServerModel.java:425-444 | The leaveChannel step; its contract is LeaveOutcome |
| ServerSpec.LeaveOutcome | src/main/java/org/cis120/ServerModel.java:425-444 | NO_SUCH_CHANNEL, then USER_NOT_IN_CHANNEL; success tells the membership as it was before, leaver included, and deletes the channel when the owner leaves, else removes only the leaver |
| ServerSpec.LeavePreservesConsistency | src/main/java/org/cis120/ServerModel.java:425-444 | Leaving keeps both invariants |
| ServerSpec.Invite | src/main/java/org/cis120/ServerModel.java:475-498 | The inviteUser step; its contract is InviteOutcome |
| ServerSpec.InviteOutcome | src/main/java/org/cis120/ServerModel.java:475-498 | NO_SUCH_USER, NO_SUCH_CHANNEL, INVITE_TO_PUBLIC_CHANNEL, USER_NOT_OWNER, each exactly when it is the first check to fail; success adds the invitee and replies Names with the new membership and the sender as owner |
| ServerSpec.InviteIdempotent | src/main/java/org/cis120/ServerModel.java:494-497 | Repeating an invite changes nothing further and gives the same broadcast |
| ServerSpec.InvitePreservesConsistency | src/main/java/org/cis120/ServerModel.java:475-498 | Inviting keeps both invariants |
| ServerSpec.Kick | src/main/java/org/cis120/ServerModel.java:523-549 | The kickUser step; its contract is KickOutcome |
| ServerSpec.KickOutcome | src/main/java/org/cis120/ServerModel.java:523-549 | NO_SUCH_USER, NO_SUCH_CHANNEL, USER_NOT_IN_CHANNEL, USER_NOT_OWNER, each exactly when it is the first check to fail; success tells the membership before the kick, kicked user included, deletes the channel on a self-kick and otherwise removes only the kicked user |
| ServerSpec.KickPreservesConsistency | src/main/java/org/cis120/ServerModel.java:523-549 | Kicking keeps both invariants |
| Server.ServerModel.constructor | src/main/java/org/cis120/ServerModel.java:28-31 | The server starts with no channels and no users |
| Server.ServerModel.GetUserId | src/main/java/org/cis120/ServerModel.java:48-55 | The returned id is bound to the nickname; None means no id is; with distinct nicknames it is the one such id |
| Server.ServerModel.GetNickname | src/main/java/org/cis120/ServerModel.java:67-72 | Some nickname exactly when the id is registered, and then it is the bound nickname |
| Server.ServerModel.GetRegisteredUsers | src/main/java/org/cis120/ServerModel.java:83-86 | The result holds exactly the registered nicknames |
| Server.ServerModel.GetChannels | src/main/java/org/cis120/ServerModel.java:97-100 | The result holds exactly the channel names |
| Server.ServerModel.GetUsersInChannel | src/main/java/org/cis120/ServerModel.java:113-119 | The channel's members, or nothing for an unknown channel |
| Server.ServerModel.GetOwner | src/main/java/org/cis120/ServerModel.java:131-136 | Some owner exactly when the channel exists, and then it is the channel's owner |
| Server.ServerModel.GenerateUniqueNickname | src/main/java/org/cis120/ServerModel.java:172-180 | The do-while loop returns "User" plus the smallest suffix whose name is not registered |
| Server.ServerModel.RegisterUser | src/main/java/org/cis120/ServerModel.java:155-162 | Binds the id to the next default nickname and replies Connected, as the connect step says |
| Server.ServerModel.DeregisterUser | src/main/java/org/cis120/ServerModel.java:200-219 | The new state and the reply are those of the disconnect step |
| Server.ServerModel.DepartChannels | src/main/java/org/cis120/ServerModel.java:201-215 | The scan over a copy of the table leaves the departed table and collects the disconnect recipients |
| Server.ServerModel.ScanChannel | src/main/java/org/cis120/ServerModel.java:206-215 | One iteration of the disconnect scan keeps the loop invariant: one more channel is banned from, and deleted if owned |
| Server.ServerModel.Depart | src/main/java/org/cis120/ServerModel.java:207-214 | For one channel: ban the user, return the members left if they were in it, and delete the channel if they owned it |
| Server.ServerModel.ChangeNickname | src/main/java/org/cis120/ServerModel.java:240-269 | The new state and the reply are those of the rename step, errors included |
| Server.ServerModel.ApplyRename | src/main/java/org/cis120/ServerModel.java:254-268 | A rename past its checks: channels rewritten, registry rebound, Okay to the renamed memberships |
| Server.ServerModel.RenameInChannels | src/main/java/org/cis120/ServerModel.java:254-266 | The loop rewrites every channel as the rename step does and collects the rename recipients |
| Server.ServerModel.RenameMember | src/main/java/org/cis120/ServerModel.java:257-264 | One channel is renamed in place, through its live member set, and its new membership is returned if it held the old nickname |
| Server.ServerModel.CreateChannel | src/main/java/org/cis120/ServerModel.java:315-338 | The new state and the reply are those of the create step |
| Server.ServerModel.JoinChannel | src/main/java/org/cis120/ServerModel.java:359-374 | The new state and the reply are those of the join step |
| Server.ServerModel.SendMessage | src/main/java/org/cis120/ServerModel.java:393-406 | Changes nothing and replies as the send step does |
| Server.ServerModel.LeaveChannel | src/main/java/org/cis120/ServerModel.java:425-444 | The new state and the reply are those of the leave step |
| Server.ServerModel.InviteUser | src/main/java/org/cis120/ServerModel.java:475-498 | The new state and the reply are those of the invite step |
| Server.ServerModel.KickUser | src/main/java/org/cis120/ServerModel.java:523-549 | The new state and the reply are those of the kick step |
| Scenarios.DefaultRegistrations | src/test/java/org/cis120/ServerModelTest.java:126-128 | On a fresh server the first three registrations receive "User0", "User1" and "User2", the least free default nicknames |
| Scenarios.RegisterThree | src/test/java/org/cis120/ServerModelTest.java:126-128 | Three registerUser calls on a new server object reply Connected("User0"), ("User1"), ("User2") and reach the three-user state |
| Scenarios.TwoChannelsState | src/test/java/org/cis120/ServerModelTest.java:126-131 | The three registrations receive their default nicknames, and two creates by User0 give two channels, each holding only User0 |
| Scenarios.CrowdedState | src/test/java/org/cis120/ServerModelTest.java:125-140 | After User1 and User2 join channel "1", it holds all three users |
| Scenarios.CrowdedSharers | src/test/java/org/cis120/ServerModelTest.java:125-140 | User2 shares a channel with exactly User0 and User1 |
| Scenarios.DeregisterNotifyScenario | src/test/java/org/cis120/ServerModelTest.java:125-147 | When User2 disconnects, exactly User0 and User1 are told |
| Scenarios.OwnerDeregisterScenario | src/test/java/org/cis120/ServerModelTest.java:106-122 | When User0, owner of both channels, disconnects, no channel is left |
| Scenarios.NickInChannelsScenario | src/test/java/org/cis120/ServerModelTest.java:86-103 | From the two registrations of the test, after User0 renames to "cis120", channel "2" holds User1 and cis120 |
| Scenarios.LeaveOwnerScenario | src/test/java/org/cis120/ServerModelTest.java:151-162 | When the owner leaves, the channel is deleted |
| Scenarios.KickOwnChannelScenario | src/test/java/org/cis120/ServerModelTest.java:314-326 | An owner kicking themself is told Okay and the channel is deleted |

## Left out

- Letters and digits are the ASCII ones. The Unicode tables behind Java's `Character.isLetterOrDigit` are not modelled.
- The `null` and `-1` results of the queries are an `Option`. `isValidName(null)` has no counterpart, since a Dafny string is never null.
- TreeMap and TreeSet iteration order, and the copies the queries return, are not modelled. The state is held in Dafny `map` and `set` values, so a returned set cannot alias the state. `getUserId` picks whichever matching entry it meets; with distinct nicknames only one exists.
- The suffix counter of `generateUniqueNickname` is unbounded. The 32-bit `int` would need more than two billion users to wrap.
- `Channel.compareTo` always returns 0 and nothing relies on channel ordering.
- The getters of `Channel` (`getIsPrivate`, `getOwner`, `getUserList`) are field reads of the class. The live set that `getUserList` hands out is modelled by `RenameMember`, which writes the channel's `userList` field directly, as the rename loop does through that alias.
- The scans of the registry and of the channel table in `changeNickname` and `createChannel` are modelled as membership tests. They only look for a match and return on the first one.
- The backend, the transport, and the wire encoding of `Command` and `Broadcast` are not part of this model. The sender's id and nickname arrive in the command as decoded values.
- Server.ServerModel.DeregisterUser: requires the id to be registered. Otherwise the source looks up a null nickname. With at least one channel, the membership test on null fails; with no channels, the loop does not run and the source replies `Disconnected(null, {})` and changes nothing. Neither case is modelled.
- Server.ServerModel.RegisterUser: does not require a fresh id. `put` is modelled as overwriting an existing binding, as the source does. Distinct nicknames are still preserved, because the new nickname is always unused.
- Server.ServerModel.ChangeNickname: does not require the sender's nickname to match the registry. The conditional `replace` is modelled by `Rebind`, and `RenameEffect` states the full effect under that match.
