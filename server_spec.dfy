/**
 * The server's state machine as values: one function per handler, from the state before
 * the call to the state after it and the broadcast it returns. The ServerModel class is
 * proved against these functions; the properties of the protocol are proved about them.
 */
module ServerSpec {
  import opened Names
  import opened Protocol
  import opened Channels

  /** Channel name to channel. */
  type Table = map<string, ChannelInfo>
  /** Connection id to nickname. */
  type Registry = map<int, string>

  datatype State = State(channels: Table, users: Registry)

  /** The state after a handler, and the broadcast it returns. */
  datatype Step = Step(next: State, reply: Broadcast)

  // ---------------------------------------------------------------------------
  // Invariants

  /** No two connections hold the same nickname. */
  ghost predicate UniqueNicknames(users: Registry) {
    forall a, b :: a in users && b in users && a != b ==> users[a] != users[b]
  }

  /** Every channel's owner is one of its members. */
  ghost predicate OwnersAreMembers(table: Table) {
    forall k :: k in table ==> table[k].owner in table[k].members
  }

  ghost predicate Consistent(s: State) {
    UniqueNicknames(s.users) && OwnersAreMembers(s.channels)
  }

  /** Everyone who is in some channel together with nick, nick included. */
  function Sharers(table: Table, nick: string): set<string> {
    set k, u | k in table && nick in table[k].members && u in table[k].members :: u
  }

  // ---------------------------------------------------------------------------
  // registerUser

  /** Binds id to nick, overwriting any earlier binding of id as a map put does. */
  function Connect(s: State, id: int, nick: string): Step
  {
    Step(State(s.channels, s.users[id := nick]), Connected(nick))
  }

  /** The new binding, with the table and every other binding unchanged. */
  lemma ConnectOutcome(s: State, id: int, nick: string)
    ensures var r := Connect(s, id, nick);
      && (r.reply == Connected(nick))
      && (r.next.channels == s.channels)
      && (id in r.next.users && r.next.users[id] == nick)
      && (r.next.users.Keys == s.users.Keys + {id})
      && (forall other :: other in s.users && other != id ==> r.next.users[other] == s.users[other])
  {
  }

  lemma ConnectPreservesConsistency(s: State, id: int, nick: string)
    requires Consistent(s) && nick !in s.users.Values
    ensures Consistent(Connect(s, id, nick).next)
  {
    var u := Connect(s, id, nick).next.users;
    forall a, b | a in u && b in u && a != b
      ensures u[a] != u[b]
    {
      if a != id && b != id {
        assert u[a] == s.users[a] && u[b] == s.users[b];
      } else if a == id {
        assert u[b] == s.users[b] && u[b] in s.users.Values;
      } else {
        assert u[a] == s.users[a] && u[a] in s.users.Values;
      }
    }
  }

  // ---------------------------------------------------------------------------
  // deregisterUser

  /** The channel is deleted when nick leaves it: nick is a member and its owner. */
  predicate OwnedBy(c: ChannelInfo, nick: string) {
    nick in c.members && c.owner == nick
  }

  /** Union, over the channels named in keys that contain nick, of their members once nick is removed. */
  function DepartureRecipients(table: Table, keys: set<string>, nick: string): set<string> {
    set k, u | k in keys && k in table && nick in table[k].members && u in table[k].WithoutMember(nick).members :: u
  }

  /** Adding one more channel to the keys scanned adds that channel's remaining members. */
  lemma DepartureRecipientsStep(table: Table, keys: set<string>, k: string, nick: string)
    requires k in table
    ensures DepartureRecipients(table, keys + {k}, nick) ==
      DepartureRecipients(table, keys, nick) + (if nick in table[k].members then table[k].WithoutMember(nick).members else {})
  {
  }

  /** The channel table once nick is gone: its own channels deleted, nick banned from the rest. */
  function Departed(table: Table, nick: string): Table {
    map k | k in table && !OwnedBy(table[k], nick) :: table[k].WithoutMember(nick)
  }

  /** The table part-way through a disconnect scan: nick is banned from the channels in done. */
  function BannedFrom(table: Table, done: set<string>, nick: string): Table {
    map k | k in table :: if k in done then table[k].WithoutMember(nick) else table[k]
  }

  lemma BannedFromStep(table: Table, done: set<string>, k: string, nick: string)
    requires k in table
    ensures BannedFrom(table, done + {k}, nick) == BannedFrom(table, done, nick)[k := table[k].WithoutMember(nick)]
  {
  }

  function Disconnect(s: State, id: int): Step
    requires id in s.users
  {
    var nick := s.users[id];
    Step(State(Departed(s.channels, nick), s.users - {id}),
         Disconnected(nick, DepartureRecipients(s.channels, s.channels.Keys, nick)))
  }

  /**
   * The registry loses id; the nickname is left in no channel and none of its channels survive;
   * every surviving channel is an old one with only the nickname removed.
   */
  lemma DisconnectOutcome(s: State, id: int)
    requires id in s.users
    ensures var r := Disconnect(s, id);
      && (r.reply.Disconnected? && r.reply.nickname == s.users[id])
      && (s.users[id] !in r.reply.recipients)
      && (id !in r.next.users && r.next.users.Keys == s.users.Keys - {id})
      && (forall other :: other in r.next.users ==> r.next.users[other] == s.users[other])
      && (forall k :: k in r.next.channels ==> s.users[id] !in r.next.channels[k].members)
      && (forall k :: k in s.channels && OwnedBy(s.channels[k], s.users[id]) ==> k !in r.next.channels)
      && (forall k :: k in r.next.channels ==>
            k in s.channels && r.next.channels[k] == s.channels[k].WithoutMember(s.users[id]))
  {
  }

  /** Recipients of a disconnect: everyone who shared a channel with the user, except the user. */
  lemma DisconnectRecipients(s: State, id: int)
    requires id in s.users
    ensures Disconnect(s, id).reply.recipients == Sharers(s.channels, s.users[id]) - {s.users[id]}
  {
    var nick := s.users[id];
    var r := Disconnect(s, id).reply.recipients;
    var t := s.channels;
    forall u | u in Sharers(t, nick) - {nick}
      ensures u in r
    {
      var k :| k in t && nick in t[k].members && u in t[k].members;
      assert u in t[k].WithoutMember(nick).members;
    }
  }

  /** With owners among members, every channel the user owned is gone and nothing left is owned by them. */
  lemma DisconnectDeletesOwnedChannels(s: State, id: int)
    requires id in s.users && OwnersAreMembers(s.channels)
    ensures var nick, t := s.users[id], Disconnect(s, id).next.channels;
      (forall k :: k in s.channels && s.channels[k].owner == nick ==> k !in t) &&
      (forall k :: k in t ==> t[k].owner != nick) &&
      (forall k :: k in s.channels && s.channels[k].owner != nick ==> k in t)
  {
  }

  lemma DisconnectPreservesConsistency(s: State, id: int)
    requires id in s.users && Consistent(s)
    ensures Consistent(Disconnect(s, id).next)
  {
    var nick := s.users[id];
    var t := Disconnect(s, id).next.channels;
    forall k | k in t
      ensures t[k].owner in t[k].members
    {
      assert t[k] == s.channels[k].WithoutMember(nick);
      assert s.channels[k].owner != nick;
    }
  }

  // ---------------------------------------------------------------------------
  // changeNickname

  /** One channel after from is renamed to to: both membership and ownership follow. */
  function Renamed(c: ChannelInfo, from: string, to: string): (r: ChannelInfo)
    ensures r.isPrivate == c.isPrivate
    ensures from !in c.members ==> r == c
    ensures from in c.members ==> to in r.members && r.members - {to} == c.members - {from} - {to}
    ensures from in c.members && c.owner == from ==> r.owner == to
    ensures c.owner != from ==> r.owner == c.owner
  {
    if from in c.members then
      ChannelInfo((c.members - {from}) + {to}, if c.owner == from then to else c.owner, c.isPrivate)
    else
      c
  }

  function RenameTable(table: Table, from: string, to: string): Table {
    map k | k in table :: Renamed(table[k], from, to)
  }

  /** Union, over the channels named in keys that contain from, of their renamed memberships. */
  function RenameRecipients(table: Table, keys: set<string>, from: string, to: string): set<string> {
    set k, u | k in keys && k in table && from in table[k].members && u in Renamed(table[k], from, to).members :: u
  }

  /** Adding one more channel to the keys scanned adds that channel's renamed membership. */
  lemma RenameRecipientsStep(table: Table, keys: set<string>, k: string, from: string, to: string)
    requires k in table
    ensures RenameRecipients(table, keys + {k}, from, to) ==
      RenameRecipients(table, keys, from, to) + (if from in table[k].members then Renamed(table[k], from, to).members else {})
  {
  }

  /** users[id] becomes to, but only if it is currently from (a conditional map replace). */
  function Rebind(users: Registry, id: int, from: string, to: string): (r: Registry)
    ensures r.Keys == users.Keys
    ensures forall other :: other in users && other != id ==> r[other] == users[other]
    ensures id in users && users[id] == from ==> r[id] == to
    ensures !(id in users && users[id] == from) ==> r == users
  {
    if id in users && users[id] == from then users[id := to] else users
  }

  function Rename(s: State, cmd: Command): Step
    requires cmd.NicknameCommand?
  {
    var from, to := cmd.sender, cmd.newNickname;
    if !ValidName(to) then
      Step(s, Error(cmd, InvalidName))
    else if to in s.users.Values then
      Step(s, Error(cmd, NameAlreadyInUse))
    else
      Step(State(RenameTable(s.channels, from, to), Rebind(s.users, cmd.senderId, from, to)),
           Okay(cmd, RenameRecipients(s.channels, s.channels.Keys, from, to)))
  }

  /** The checks run in order (name validity, then name in use); an error changes nothing. */
  lemma RenameOutcome(s: State, cmd: Command)
    requires cmd.NicknameCommand?
    ensures var r := Rename(s, cmd);
      && (r.reply == Error(cmd, InvalidName) <==> !ValidName(cmd.newNickname))
      && (r.reply == Error(cmd, NameAlreadyInUse) <==>
              ValidName(cmd.newNickname) && cmd.newNickname in s.users.Values)
      && (r.reply.Error? ==> r.next == s)
      && (!r.reply.Error? ==> r.reply.Okay? && r.reply.command == cmd && r.next.channels.Keys == s.channels.Keys)
  {
  }

  /**
   * Unfolds Rename on the path where both checks pass; ApplyRename calls it to connect its
   * updates to the rename step. The effect itself is stated by RenameEffect and
   * RenameRecipientsAreSharers.
   */
  lemma RenameSucceeds(s: State, cmd: Command)
    requires cmd.NicknameCommand? && ValidName(cmd.newNickname) && cmd.newNickname !in s.users.Values
    ensures var from, to := cmd.sender, cmd.newNickname;
      Rename(s, cmd) == Step(State(RenameTable(s.channels, from, to), Rebind(s.users, cmd.senderId, from, to)),
                             Okay(cmd, RenameRecipients(s.channels, s.channels.Keys, from, to)))
  {
  }

  /**
   * A successful rename of a registered sender: every channel holding the old nickname holds the
   * new one instead, ownership follows, channels without the old nickname are untouched, and the
   * sender's id is bound to the new nickname with no other binding changed.
   */
  lemma RenameEffect(s: State, cmd: Command)
    requires cmd.NicknameCommand? && ValidName(cmd.newNickname) && cmd.newNickname !in s.users.Values
    requires cmd.senderId in s.users && s.users[cmd.senderId] == cmd.sender
    ensures var from, to, r := cmd.sender, cmd.newNickname, Rename(s, cmd);
      && r.reply == Okay(cmd, RenameRecipients(s.channels, s.channels.Keys, from, to))
      && r.next.channels.Keys == s.channels.Keys
      && (forall k :: k in s.channels && from in s.channels[k].members ==>
            var before, after := s.channels[k], r.next.channels[k];
            && from !in after.members && to in after.members
            && (forall u :: u != from && u != to ==> (u in after.members <==> u in before.members))
            && (before.owner == from ==> after.owner == to)
            && (before.owner != from ==> after.owner == before.owner)
            && after.isPrivate == before.isPrivate)
      && (forall k :: k in s.channels && from !in s.channels[k].members ==> r.next.channels[k] == s.channels[k])
      && r.next.users == s.users[cmd.senderId := to]
  {
    var from, to := cmd.sender, cmd.newNickname;
    assert from in s.users.Values;
    assert from != to;
    var r := Rename(s, cmd);
    forall k | k in s.channels && from in s.channels[k].members
      ensures from !in r.next.channels[k].members
    {
      assert r.next.channels[k] == Renamed(s.channels[k], from, to);
    }
  }

  /**
   * Recipients of a rename: everyone who shared a channel with the sender, under the new name;
   * a sender who is in no channel gets an empty recipient set.
   */
  lemma RenameRecipientsAreSharers(s: State, cmd: Command)
    requires cmd.NicknameCommand? && ValidName(cmd.newNickname) && cmd.newNickname !in s.users.Values
    ensures var from, to := cmd.sender, cmd.newNickname;
      Rename(s, cmd).reply.recipients ==
        (Sharers(s.channels, from) - {from}) + (if Sharers(s.channels, from) == {} then {} else {to})
  {
    var from, to := cmd.sender, cmd.newNickname;
    var t := s.channels;
    var r := Rename(s, cmd).reply.recipients;
    var sh := Sharers(t, from);
    forall u | u in r
      ensures u in (sh - {from}) + (if sh == {} then {} else {to})
    {
      var k :| k in t && from in t[k].members && u in Renamed(t[k], from, to).members;
      assert from in sh;
      if u != to {
        assert u in t[k].members && u != from;
      }
    }
    forall u | u in (sh - {from}) + (if sh == {} then {} else {to})
      ensures u in r
    {
      if u in sh - {from} {
        var k :| k in t && from in t[k].members && u in t[k].members;
        assert u in Renamed(t[k], from, to).members;
      } else {
        var v :| v in sh;
        var k :| k in t && from in t[k].members && v in t[k].members;
        assert to in Renamed(t[k], from, to).members;
      }
    }
  }

  /** A sender who is in no channel is told nothing about the rename, not even themself. */
  lemma RenameOfIdleSenderHasNoRecipients(s: State, cmd: Command)
    requires cmd.NicknameCommand? && ValidName(cmd.newNickname) && cmd.newNickname !in s.users.Values
    requires forall k :: k in s.channels ==> cmd.sender !in s.channels[k].members
    ensures Rename(s, cmd).reply == Okay(cmd, {})
  {
    assert RenameRecipients(s.channels, s.channels.Keys, cmd.sender, cmd.newNickname) == {};
  }

  /** Renaming to the nickname one already holds is refused: the name is in use. */
  lemma RenameToOwnNicknameFails(s: State, cmd: Command)
    requires cmd.NicknameCommand? && ValidName(cmd.newNickname)
    requires cmd.senderId in s.users && s.users[cmd.senderId] == cmd.newNickname
    ensures Rename(s, cmd) == Step(s, Error(cmd, NameAlreadyInUse))
  {
    assert s.users[cmd.senderId] in s.users.Values;
  }

  lemma RenamePreservesConsistency(s: State, cmd: Command)
    requires cmd.NicknameCommand? && Consistent(s)
    ensures Consistent(Rename(s, cmd).next)
  {
    var r := Rename(s, cmd);
    if !r.reply.Error? {
      var u := r.next.users;
      forall a, b | a in u && b in u && a != b
        ensures u[a] != u[b]
      {
        assert s.users[a] in s.users.Values && s.users[b] in s.users.Values;
      }
    }
  }

  // ---------------------------------------------------------------------------
  // createChannel

  function Create(s: State, cmd: Command): Step
    requires cmd.CreateCommand?
  {
    if !ValidName(cmd.channel) then
      Step(s, Error(cmd, InvalidName))
    else if cmd.channel in s.channels then
      Step(s, Error(cmd, ChannelAlreadyExists))
    else
      Step(State(s.channels[cmd.channel := ChannelInfo.Initial(cmd.sender, cmd.inviteOnly)], s.users),
           Okay(cmd, {cmd.sender}))
  }

  /** The checks run in order; success adds exactly the one new channel, owned by the sender. */
  lemma CreateOutcome(s: State, cmd: Command)
    requires cmd.CreateCommand?
    ensures var r := Create(s, cmd);
      && (r.reply == Error(cmd, InvalidName) <==> !ValidName(cmd.channel))
      && (r.reply == Error(cmd, ChannelAlreadyExists) <==> ValidName(cmd.channel) && cmd.channel in s.channels)
      && (r.reply.Error? ==> r.next == s)
      && (!r.reply.Error? ==>
              && r.reply == Okay(cmd, {cmd.sender})
              && cmd.channel !in s.channels
              && r.next.channels.Keys == s.channels.Keys + {cmd.channel}
              && |r.next.channels| == |s.channels| + 1
              && r.next.channels[cmd.channel] == ChannelInfo.Initial(cmd.sender, cmd.inviteOnly)
              && (forall k :: k in s.channels ==> r.next.channels[k] == s.channels[k])
              && r.next.users == s.users)
  {
  }

  lemma CreatePreservesConsistency(s: State, cmd: Command)
    requires cmd.CreateCommand? && Consistent(s)
    ensures Consistent(Create(s, cmd).next)
  {
  }

  // ---------------------------------------------------------------------------
  // joinChannel

  function Join(s: State, cmd: Command): Step
    requires cmd.JoinCommand?
  {
    if cmd.channel !in s.channels then
      Step(s, Error(cmd, NoSuchChannel))
    else if s.channels[cmd.channel].isPrivate then
      Step(s, Error(cmd, JoinPrivateChannel))
    else
      var c := s.channels[cmd.channel].WithMember(cmd.sender);
      Step(State(s.channels[cmd.channel := c], s.users), Names(cmd, c.members, c.owner))
  }

  /** The checks run in order; success adds the sender and returns the full membership and owner. */
  lemma JoinOutcome(s: State, cmd: Command)
    requires cmd.JoinCommand?
    ensures var r := Join(s, cmd);
      && (r.reply == Error(cmd, NoSuchChannel) <==> cmd.channel !in s.channels)
      && (r.reply == Error(cmd, JoinPrivateChannel) <==>
              cmd.channel in s.channels && s.channels[cmd.channel].isPrivate)
      && (r.reply.Error? ==> r.next == s)
      && (!r.reply.Error? ==>
              && r.next == State(s.channels[cmd.channel := s.channels[cmd.channel].WithMember(cmd.sender)], s.users)
              && r.reply == Names(cmd, r.next.channels[cmd.channel].members, s.channels[cmd.channel].owner)
              && cmd.sender in r.reply.recipients)
  {
  }

  /** A private channel cannot be joined, not even by its owner. */
  lemma JoinPrivateChannelFailsForOwner(s: State, cmd: Command)
    requires cmd.JoinCommand? && cmd.channel in s.channels
    requires s.channels[cmd.channel].isPrivate && s.channels[cmd.channel].owner == cmd.sender
    ensures Join(s, cmd) == Step(s, Error(cmd, JoinPrivateChannel))
  {
  }

  lemma JoinPreservesConsistency(s: State, cmd: Command)
    requires cmd.JoinCommand? && Consistent(s)
    ensures Consistent(Join(s, cmd).next)
  {
  }

  // ---------------------------------------------------------------------------
  // sendMessage

  function Send(s: State, cmd: Command): Step
    requires cmd.MessageCommand?
  {
    if cmd.channel !in s.channels then
      Step(s, Error(cmd, NoSuchChannel))
    else if cmd.sender !in s.channels[cmd.channel].members then
      Step(s, Error(cmd, UserNotInChannel))
    else
      Step(s, Okay(cmd, s.channels[cmd.channel].members))
  }

  /** Sending never changes the state; success addresses the whole membership. */
  lemma SendOutcome(s: State, cmd: Command)
    requires cmd.MessageCommand?
    ensures var r := Send(s, cmd);
      && (r.next == s)
      && (r.reply == Error(cmd, NoSuchChannel) <==> cmd.channel !in s.channels)
      && (r.reply == Error(cmd, UserNotInChannel) <==>
              cmd.channel in s.channels && cmd.sender !in s.channels[cmd.channel].members)
      && (!r.reply.Error? ==>
              r.reply == Okay(cmd, s.channels[cmd.channel].members) && cmd.sender in r.reply.recipients)
  {
  }

  // ---------------------------------------------------------------------------
  // leaveChannel

  function Leave(s: State, cmd: Command): Step
    requires cmd.LeaveCommand?
  {
    if cmd.channel !in s.channels then
      Step(s, Error(cmd, NoSuchChannel))
    else if cmd.sender !in s.channels[cmd.channel].members then
      Step(s, Error(cmd, UserNotInChannel))
    else
      var c := s.channels[cmd.channel];
      var table := if c.owner == cmd.sender then s.channels - {cmd.channel}
                   else s.channels[cmd.channel := c.WithoutMember(cmd.sender)];
      Step(State(table, s.users), Okay(cmd, c.members))
  }

  /** The checks run in order; success tells the membership as it was before the sender left. */
  lemma LeaveOutcome(s: State, cmd: Command)
    requires cmd.LeaveCommand?
    ensures var r := Leave(s, cmd);
      && (r.reply == Error(cmd, NoSuchChannel) <==> cmd.channel !in s.channels)
      && (r.reply == Error(cmd, UserNotInChannel) <==>
              cmd.channel in s.channels && cmd.sender !in s.channels[cmd.channel].members)
      && (r.reply.Error? ==> r.next == s)
      && (!r.reply.Error? ==>
              var c := s.channels[cmd.channel];
              && r.reply == Okay(cmd, c.members)
              && cmd.sender in r.reply.recipients
              && r.next.users == s.users
              && (c.owner == cmd.sender ==> r.next.channels == s.channels - {cmd.channel})
              && (c.owner != cmd.sender ==>
                    r.next.channels == s.channels[cmd.channel := c.WithoutMember(cmd.sender)]))
  {
  }

  lemma LeavePreservesConsistency(s: State, cmd: Command)
    requires cmd.LeaveCommand? && Consistent(s)
    ensures Consistent(Leave(s, cmd).next)
  {
  }

  // ---------------------------------------------------------------------------
  // inviteUser

  function Invite(s: State, cmd: Command): Step
    requires cmd.InviteCommand?
  {
    if cmd.userToInvite !in s.users.Values then
      Step(s, Error(cmd, NoSuchUser))
    else if cmd.channel !in s.channels then
      Step(s, Error(cmd, NoSuchChannel))
    else if !s.channels[cmd.channel].isPrivate then
      Step(s, Error(cmd, InviteToPublicChannel))
    else if s.channels[cmd.channel].owner != cmd.sender then
      Step(s, Error(cmd, UserNotOwner))
    else
      var c := s.channels[cmd.channel].WithMember(cmd.userToInvite);
      Step(State(s.channels[cmd.channel := c], s.users), Names(cmd, c.members, cmd.sender))
  }

  /** The checks run in order: user, channel, privacy, ownership; an error changes nothing. */
  lemma InviteOutcome(s: State, cmd: Command)
    requires cmd.InviteCommand?
    ensures var r := Invite(s, cmd);
      && (r.reply == Error(cmd, NoSuchUser) <==> cmd.userToInvite !in s.users.Values)
      && (r.reply == Error(cmd, NoSuchChannel) <==>
              cmd.userToInvite in s.users.Values && cmd.channel !in s.channels)
      && (r.reply == Error(cmd, InviteToPublicChannel) <==>
              cmd.userToInvite in s.users.Values && cmd.channel in s.channels && !s.channels[cmd.channel].isPrivate)
      && (r.reply == Error(cmd, UserNotOwner) <==>
              cmd.userToInvite in s.users.Values && cmd.channel in s.channels && s.channels[cmd.channel].isPrivate
              && s.channels[cmd.channel].owner != cmd.sender)
      && (r.reply.Error? ==> r.next == s)
      && (!r.reply.Error? ==>
              && s.channels[cmd.channel].owner == cmd.sender
              && r.next == State(s.channels[cmd.channel := s.channels[cmd.channel].WithMember(cmd.userToInvite)], s.users)
              && r.reply == Names(cmd, r.next.channels[cmd.channel].members, cmd.sender)
              && cmd.userToInvite in r.reply.recipients)
  {
  }

  /** Repeating an invite changes nothing further and produces the same broadcast. */
  lemma InviteIdempotent(s: State, cmd: Command)
    requires cmd.InviteCommand?
    ensures Invite(Invite(s, cmd).next, cmd) == Invite(s, cmd)
  {
    var r := Invite(s, cmd);
    if !r.reply.Error? {
      WithMemberIdempotent(s.channels[cmd.channel], cmd.userToInvite);
      assert r.next.channels[cmd.channel := r.next.channels[cmd.channel]] == r.next.channels;
    }
  }

  lemma InvitePreservesConsistency(s: State, cmd: Command)
    requires cmd.InviteCommand? && Consistent(s)
    ensures Consistent(Invite(s, cmd).next)
  {
  }

  // ---------------------------------------------------------------------------
  // kickUser

  function Kick(s: State, cmd: Command): Step
    requires cmd.KickCommand?
  {
    if cmd.userToKick !in s.users.Values then
      Step(s, Error(cmd, NoSuchUser))
    else if cmd.channel !in s.channels then
      Step(s, Error(cmd, NoSuchChannel))
    else if cmd.userToKick !in s.channels[cmd.channel].members then
      Step(s, Error(cmd, UserNotInChannel))
    else if s.channels[cmd.channel].owner != cmd.sender then
      Step(s, Error(cmd, UserNotOwner))
    else
      var c := s.channels[cmd.channel];
      var table := if c.owner == cmd.userToKick then s.channels - {cmd.channel}
                   else s.channels[cmd.channel := c.WithoutMember(cmd.userToKick)];
      Step(State(table, s.users), Okay(cmd, c.members))
  }

  /** The checks run in order: user, channel, membership, ownership; an error changes nothing. */
  lemma KickOutcome(s: State, cmd: Command)
    requires cmd.KickCommand?
    ensures var r := Kick(s, cmd);
      && (r.reply == Error(cmd, NoSuchUser) <==> cmd.userToKick !in s.users.Values)
      && (r.reply == Error(cmd, NoSuchChannel) <==>
              cmd.userToKick in s.users.Values && cmd.channel !in s.channels)
      && (r.reply == Error(cmd, UserNotInChannel) <==>
              cmd.userToKick in s.users.Values && cmd.channel in s.channels
              && cmd.userToKick !in s.channels[cmd.channel].members)
      && (r.reply == Error(cmd, UserNotOwner) <==>
              cmd.userToKick in s.users.Values && cmd.channel in s.channels
              && cmd.userToKick in s.channels[cmd.channel].members && s.channels[cmd.channel].owner != cmd.sender)
      && (r.reply.Error? ==> r.next == s)
      && (!r.reply.Error? ==>
              var c := s.channels[cmd.channel];
              && c.owner == cmd.sender
              && r.reply == Okay(cmd, c.members)
              && cmd.userToKick in r.reply.recipients
              && r.next.users == s.users
              && (cmd.userToKick == cmd.sender ==> r.next.channels == s.channels - {cmd.channel})
              && (cmd.userToKick != cmd.sender ==>
                    r.next.channels == s.channels[cmd.channel := c.WithoutMember(cmd.userToKick)]))
  {
  }

  lemma KickPreservesConsistency(s: State, cmd: Command)
    requires cmd.KickCommand? && Consistent(s)
    ensures Consistent(Kick(s, cmd).next)
  {
  }
}
