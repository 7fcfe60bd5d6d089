/**
 * The server state: the channel table and the registry of connected users, updated in place
 * by one handler per client intent. Each handler runs its checks in a fixed order, changes the
 * state only when every check passes, and returns the broadcast for the transport to deliver.
 * Every handler is proved to do exactly what the matching function of ServerSpec says.
 */
module Server {
  import opened Names
  import opened Protocol
  import opened Channels
  import opened ServerSpec

  /** The channels a disconnect scan keeps: all but those among done that nick owned. */
  function Kept(snapshot: map<string, Channel>, table: Table, done: set<string>, nick: string): map<string, Channel> {
    map k | k in snapshot && !(k in done && k in table && OwnedBy(table[k], nick)) :: snapshot[k]
  }

  lemma KeptStep(snapshot: map<string, Channel>, table: Table, done: set<string>, k: string, nick: string)
    requires k in snapshot && k in table
    ensures Kept(snapshot, table, done + {k}, nick) ==
      if OwnedBy(table[k], nick) then Kept(snapshot, table, done, nick) - {k} else Kept(snapshot, table, done, nick)
  {
  }

  /** Moving one element from the keys still to scan to the keys scanned keeps them a partition. */
  lemma MoveOne<T>(todo: set<T>, done: set<T>, x: T)
    requires x in todo && todo !! done
    ensures (todo - {x}) + (done + {x}) == todo + done && (todo - {x}) !! (done + {x})
  {
  }

  /** Before any channel is scanned, nothing is banned and every channel is kept. */
  lemma ScanStart(snapshot: map<string, Channel>, table: Table, nick: string)
    ensures BannedFrom(table, {}, nick) == table
    ensures Kept(snapshot, table, {}, nick) == snapshot
  {
  }

  /** Once every channel is scanned, the kept channels and their values are those of Departed. */
  lemma ScanComplete(snapshot: map<string, Channel>, table: Table, nick: string)
    requires snapshot.Keys == table.Keys
    ensures Kept(snapshot, table, table.Keys, nick).Keys == Departed(table, nick).Keys
    ensures forall k :: k in Departed(table, nick) ==> Departed(table, nick)[k] == BannedFrom(table, table.Keys, nick)[k]
  {
  }

  class ServerModel {
    var channels: map<string, Channel>
    var registeredUsers: map<int, string>

    /** Distinct channel names refer to distinct channel objects. */
    ghost predicate Valid()
      reads this`channels
    {
      forall a, b :: a in channels && b in channels && a != b ==> channels[a] != channels[b]
    }

    /** The channel table as values. */
    ghost function Table(): Table
      reads this`channels, channels.Values
    {
      map k | k in channels :: channels[k].View()
    }

    ghost function Abstract(): State
      reads this, channels.Values
    {
      State(Table(), registeredUsers)
    }

    constructor ()
      ensures Valid() && Abstract() == State(map[], map[])
    {
      channels := map[];
      registeredUsers := map[];
    }

    // -------------------------------------------------------------------------
    // Queries

    /** The id bound to nickname; with unique nicknames it is the only such id. */
    method GetUserId(nickname: string) returns (r: Option<int>)
      ensures r.Some? ==> r.value in registeredUsers && registeredUsers[r.value] == nickname
      ensures r.None? ==> forall id :: id in registeredUsers ==> registeredUsers[id] != nickname
      ensures UniqueNicknames(registeredUsers) ==>
        forall id :: id in registeredUsers && registeredUsers[id] == nickname ==> r == Some(id)
    {
      var todo := registeredUsers.Items;
      while todo != {}
        invariant todo <= registeredUsers.Items
        invariant forall k :: k in registeredUsers && (k, registeredUsers[k]) !in todo ==> registeredUsers[k] != nickname
        decreases todo
      {
        var entry :| entry in todo;
        assert entry.0 in registeredUsers && registeredUsers[entry.0] == entry.1;
        if entry.1 == nickname {
          assert UniqueNicknames(registeredUsers) ==>
            forall id :: id in registeredUsers && registeredUsers[id] == nickname ==> id == entry.0;
          return Some(entry.0);
        }
        todo := todo - {entry};
      }
      return None;
    }

    function GetNickname(userId: int): (r: Option<string>)
      reads this
      ensures r.Some? <==> userId in registeredUsers
      ensures r.Some? ==> registeredUsers[userId] == r.value
    {
      if userId in registeredUsers then Some(registeredUsers[userId]) else None
    }

    function GetRegisteredUsers(): (r: set<string>)
      reads this
      ensures forall id :: id in registeredUsers ==> registeredUsers[id] in r
      ensures forall n :: n in r ==> exists id :: id in registeredUsers && registeredUsers[id] == n
    {
      set id | id in registeredUsers :: registeredUsers[id]
    }

    function GetChannels(): (r: set<string>)
      reads this
      ensures forall name :: name in r <==> name in channels
    {
      channels.Keys
    }

    function GetUsersInChannel(channelName: string): (r: set<string>)
      reads this, channels.Values
      ensures channelName !in channels ==> r == {}
      ensures channelName in channels ==> r == Table()[channelName].members
    {
      if channelName in channels then channels[channelName].userList else {}
    }

    function GetOwner(channelName: string): (r: Option<string>)
      reads this, channels.Values
      ensures r.Some? <==> channelName in channels
      ensures r.Some? ==> r.value == Table()[channelName].owner
    {
      if channelName in channels then Some(channels[channelName].owner) else None
    }

    // -------------------------------------------------------------------------
    // Connections and nicknames

    /** "User" followed by the smallest suffix whose name no registered user holds. */
    method GenerateUniqueNickname() returns (nickname: string)
      ensures IsNextDefaultName(registeredUsers.Values, nickname)
    {
      var existing := GetRegisteredUsers();
      var suffix: nat := 0;
      nickname := DefaultName(suffix);
      suffix := suffix + 1;
      while nickname in existing
        invariant suffix >= 1 && nickname == DefaultName(suffix - 1)
        invariant forall k :: 0 <= k < suffix - 1 ==> DefaultName(k) in existing
        decreases |existing| - suffix
      {
        DefaultNamesBound(existing, suffix);
        nickname := DefaultName(suffix);
        suffix := suffix + 1;
      }
      assert IsLeastFree(existing, suffix - 1);
    }

    method RegisterUser(userId: int) returns (b: Broadcast)
      requires Valid()
      modifies this
      ensures Valid() && channels == old(channels)
      ensures b.Connected? && IsNextDefaultName(old(registeredUsers.Values), b.nickname)
      ensures Abstract() == Connect(old(Abstract()), userId, b.nickname).next
    {
      var nickname := GenerateUniqueNickname();
      registeredUsers := registeredUsers[userId := nickname];
      b := Connected(nickname);
    }

    /**
     * Removes the user from every channel, deletes the channels they owned, and tells the
     * remaining members of those channels; then the registry entry is dropped.
     */
    method DeregisterUser(userId: int) returns (b: Broadcast)
      requires Valid() && userId in registeredUsers
      modifies this, channels.Values
      ensures Valid()
      ensures Abstract() == Disconnect(old(Abstract()), userId).next
      ensures b == Disconnect(old(Abstract()), userId).reply
    {
      var nick := registeredUsers[userId];
      var notify := DepartChannels(nick);
      registeredUsers := registeredUsers - {userId};
      b := Disconnected(nick, notify);
    }

    /**
     * The channel scan of a disconnect. The table is scanned through a copy, so deleting
     * entries does not disturb the scan.
     */
    method DepartChannels(nick: string) returns (notify: set<string>)
      requires Valid()
      modifies this`channels, channels.Values
      ensures Valid()
      ensures Table() == Departed(old(Table()), nick)
      ensures notify == DepartureRecipients(old(Table()), old(Table()).Keys, nick)
    {
      var snapshot := channels;
      ghost var before := Table();
      notify := {};
      var todo := snapshot.Keys;
      ghost var done: set<string> := {};
      ghost var current := before;
      ScanStart(snapshot, before, nick);
      while todo != {}
        invariant todo !! done && todo + done == snapshot.Keys == before.Keys
        invariant forall a, b :: a in snapshot && b in snapshot && a != b ==> snapshot[a] != snapshot[b]
        invariant current == BannedFrom(before, done, nick)
        invariant forall k :: k in snapshot ==> snapshot[k].View() == current[k]
        invariant channels == Kept(snapshot, before, done, nick)
        invariant notify == DepartureRecipients(before, done, nick)
        decreases todo
      {
        var name :| name in todo;
        var left;
        left, current := ScanChannel(snapshot, before, done, current, name, nick);
        notify := notify + left;
        DepartureRecipientsStep(before, done, name, nick);
        MoveOne(todo, done, name);
        todo := todo - {name};
        done := done + {name};
      }
      ScanComplete(snapshot, before, nick);
      assert Table() == Departed(before, nick);
    }

    /** One step of the disconnect scan, over the channel named name, with its bookkeeping. */
    method ScanChannel(snapshot: map<string, Channel>, ghost before: Table, ghost done: set<string>,
                       ghost current: Table, name: string, nick: string)
      returns (left: set<string>, ghost next: Table)
      requires name in snapshot && name !in done && snapshot.Keys == before.Keys
      requires forall a, b :: a in snapshot && b in snapshot && a != b ==> snapshot[a] != snapshot[b]
      requires current == BannedFrom(before, done, nick)
      requires forall k :: k in snapshot ==> snapshot[k].View() == current[k]
      requires channels == Kept(snapshot, before, done, nick)
      modifies this`channels, snapshot[name]
      ensures next == BannedFrom(before, done + {name}, nick)
      ensures forall k :: k in snapshot ==> snapshot[k].View() == next[k]
      ensures channels == Kept(snapshot, before, done + {name}, nick)
      ensures left == if nick in before[name].members then before[name].WithoutMember(nick).members else {}
    {
      left := Depart(name, snapshot[name], nick);
      BannedFromStep(before, done, name, nick);
      KeptStep(snapshot, before, done, name, nick);
      next := current[name := snapshot[name].View()];
    }

    /**
     * One step of a disconnect: nick is banned from channel c (named name), the members left
     * behind are returned, and the channel is deleted when nick owned it.
     */
    method Depart(name: string, c: Channel, nick: string) returns (left: set<string>)
      modifies this`channels, c
      ensures c.View() == old(c.View()).WithoutMember(nick)
      ensures left == if nick in old(c.View()).members then c.View().members else {}
      ensures channels == if OwnedBy(old(c.View()), nick) then old(channels) - {name} else old(channels)
    {
      left := {};
      if nick in c.userList {
        c.BanUser(nick);
        left := c.userList;
        if nick == c.owner {
          channels := channels - {name};
        }
      }
    }

    /**
     * Renames the sender. Every channel holding the old nickname is rewritten, its owner
     * included, and the members of those channels are told.
     */
    method ChangeNickname(cmd: Command) returns (b: Broadcast)
      requires Valid() && cmd.NicknameCommand?
      modifies this, channels.Values
      ensures Valid() && channels == old(channels)
      ensures Abstract() == Rename(old(Abstract()), cmd).next
      ensures b == Rename(old(Abstract()), cmd).reply
    {
      var ok := IsValidName(cmd.newNickname);
      if !ok {
        return Error(cmd, InvalidName);
      }
      if cmd.newNickname in registeredUsers.Values {
        return Error(cmd, NameAlreadyInUse);
      }
      b := ApplyRename(cmd);
    }

    /** A rename that passed its checks: the channels are rewritten, then the registry entry. */
    method ApplyRename(cmd: Command) returns (b: Broadcast)
      requires Valid() && cmd.NicknameCommand?
      requires ValidName(cmd.newNickname) && cmd.newNickname !in registeredUsers.Values
      modifies this, channels.Values
      ensures Valid() && channels == old(channels)
      ensures Abstract() == Rename(old(Abstract()), cmd).next
      ensures b == Rename(old(Abstract()), cmd).reply
    {
      var from, to := cmd.sender, cmd.newNickname;
      RenameSucceeds(Abstract(), cmd);
      var shared := RenameInChannels(from, to);
      if cmd.senderId in registeredUsers && registeredUsers[cmd.senderId] == from {
        registeredUsers := registeredUsers[cmd.senderId := to];
      }
      b := Okay(cmd, shared);
    }

    /**
     * The channel scan of a rename: every channel holding from is rewritten in place, and the
     * members of those channels, under their new names, are collected.
     */
    method RenameInChannels(from: string, to: string) returns (shared: set<string>)
      requires Valid()
      modifies channels.Values
      ensures Table() == RenameTable(old(Table()), from, to)
      ensures shared == RenameRecipients(old(Table()), old(Table()).Keys, from, to)
    {
      ghost var before := Table();
      shared := {};
      var todo := channels.Keys;
      ghost var done: set<string> := {};
      while todo != {}
        invariant todo !! done && todo + done == before.Keys == channels.Keys
        invariant forall k :: k in todo ==> channels[k].View() == before[k]
        invariant forall k :: k in done ==> channels[k].View() == Renamed(before[k], from, to)
        invariant shared == RenameRecipients(before, done, from, to)
        decreases todo
      {
        var name :| name in todo;
        var left := RenameMember(channels[name], from, to);
        shared := shared + left;
        RenameRecipientsStep(before, done, name, from, to);
        todo := todo - {name};
        done := done + {name};
      }
      assert Table() == RenameTable(before, from, to);
    }

    /**
     * Rewrites one channel if it holds from: the owner follows the rename, and the member set
     * is edited in place, through the live view the channel hands out. Returns the renamed
     * membership, or nothing when from is not a member.
     */
    static method RenameMember(c: Channel, from: string, to: string) returns (left: set<string>)
      modifies c
      ensures c.View() == Renamed(old(c.View()), from, to)
      ensures left == if from in old(c.userList) then c.userList else {}
    {
      left := {};
      if from in c.userList {
        if c.owner == from {
          c.SetOwner(to);
        }
        c.userList := c.userList - {from};
        c.userList := c.userList + {to};
        left := c.userList;
      }
    }

    // -------------------------------------------------------------------------
    // Channels and messages

    method CreateChannel(cmd: Command) returns (b: Broadcast)
      requires Valid() && cmd.CreateCommand?
      modifies this
      ensures Valid()
      ensures Abstract() == Create(old(Abstract()), cmd).next
      ensures b == Create(old(Abstract()), cmd).reply
    {
      var ok := IsValidName(cmd.channel);
      if !ok {
        return Error(cmd, InvalidName);
      }
      if cmd.channel in channels {
        return Error(cmd, ChannelAlreadyExists);
      }
      var c := new Channel(cmd.sender, cmd.inviteOnly);
      channels := channels[cmd.channel := c];
      b := Okay(cmd, {cmd.sender});
      assert Table() == old(Table())[cmd.channel := c.View()];
    }

    method JoinChannel(cmd: Command) returns (b: Broadcast)
      requires Valid() && cmd.JoinCommand?
      modifies channels.Values
      ensures Valid()
      ensures Abstract() == Join(old(Abstract()), cmd).next
      ensures b == Join(old(Abstract()), cmd).reply
    {
      if cmd.channel !in channels {
        return Error(cmd, NoSuchChannel);
      }
      var c := channels[cmd.channel];
      if c.isPrivate {
        return Error(cmd, JoinPrivateChannel);
      }
      c.AddUser(cmd.sender);
      b := Names(cmd, c.userList, c.owner);
      assert Table() == old(Table())[cmd.channel := c.View()];
    }

    /** Sending changes nothing; the message goes to the whole membership. */
    method SendMessage(cmd: Command) returns (b: Broadcast)
      requires cmd.MessageCommand?
      ensures b == Send(Abstract(), cmd).reply
    {
      if cmd.channel !in channels {
        return Error(cmd, NoSuchChannel);
      }
      if cmd.sender !in channels[cmd.channel].userList {
        return Error(cmd, UserNotInChannel);
      }
      b := Okay(cmd, channels[cmd.channel].userList);
    }

    /** The members before the sender leaves are told; an owner leaving deletes the channel. */
    method LeaveChannel(cmd: Command) returns (b: Broadcast)
      requires Valid() && cmd.LeaveCommand?
      modifies this, channels.Values
      ensures Valid()
      ensures Abstract() == Leave(old(Abstract()), cmd).next
      ensures b == Leave(old(Abstract()), cmd).reply
    {
      if cmd.channel !in channels {
        return Error(cmd, NoSuchChannel);
      }
      var c := channels[cmd.channel];
      if cmd.sender !in c.userList {
        return Error(cmd, UserNotInChannel);
      }
      var recipients := c.userList;
      if c.owner == cmd.sender {
        channels := channels - {cmd.channel};
        assert Table() == old(Table()) - {cmd.channel};
      } else {
        c.BanUser(cmd.sender);
        assert Table() == old(Table())[cmd.channel := c.View()];
      }
      b := Okay(cmd, recipients);
    }

    // -------------------------------------------------------------------------
    // Channel privacy

    method InviteUser(cmd: Command) returns (b: Broadcast)
      requires Valid() && cmd.InviteCommand?
      modifies channels.Values
      ensures Valid()
      ensures Abstract() == Invite(old(Abstract()), cmd).next
      ensures b == Invite(old(Abstract()), cmd).reply
    {
      if cmd.userToInvite !in registeredUsers.Values {
        return Error(cmd, NoSuchUser);
      }
      if cmd.channel !in channels {
        return Error(cmd, NoSuchChannel);
      }
      var c := channels[cmd.channel];
      if !c.isPrivate {
        return Error(cmd, InviteToPublicChannel);
      }
      if c.owner != cmd.sender {
        return Error(cmd, UserNotOwner);
      }
      c.AddUser(cmd.userToInvite);
      b := Names(cmd, c.userList, cmd.sender);
      assert Table() == old(Table())[cmd.channel := c.View()];
    }

    /**
     * The members before the kick are told, the kicked user included. When the owner kicks
     * themself the channel is deleted, and the removed channel object is still banned from.
     */
    method KickUser(cmd: Command) returns (b: Broadcast)
      requires Valid() && cmd.KickCommand?
      modifies this, channels.Values
      ensures Valid()
      ensures Abstract() == Kick(old(Abstract()), cmd).next
      ensures b == Kick(old(Abstract()), cmd).reply
    {
      if cmd.userToKick !in registeredUsers.Values {
        return Error(cmd, NoSuchUser);
      }
      if cmd.channel !in channels {
        return Error(cmd, NoSuchChannel);
      }
      var c := channels[cmd.channel];
      if cmd.userToKick !in c.userList {
        return Error(cmd, UserNotInChannel);
      }
      if c.owner != cmd.sender {
        return Error(cmd, UserNotOwner);
      }
      if c.owner == cmd.userToKick {
        channels := channels - {cmd.channel};
      }
      var recipients := c.userList;
      c.BanUser(cmd.userToKick);
      b := Okay(cmd, recipients);
      if cmd.channel in channels {
        assert Table() == old(Table())[cmd.channel := c.View()];
      } else {
        assert Table() == old(Table()) - {cmd.channel};
      }
    }
  }
}
