/** One chat channel: its member nicknames, its owner and its privacy flag. */
module Channels {

  /** The value of a channel at one instant. */
  datatype ChannelInfo = ChannelInfo(members: set<string>, owner: string, isPrivate: bool)
  {
    /** A channel as it is created: the owner is its only member. */
    static function Initial(owner: string, isPrivate: bool): (c: ChannelInfo)
      ensures c.members == {owner} && c.owner == owner && c.isPrivate == isPrivate
      ensures c.owner in c.members
    {
      ChannelInfo({owner}, owner, isPrivate)
    }

    /** The channel after nick is added; adding a member is an idempotent set insert. */
    function WithMember(nick: string): (c: ChannelInfo)
      ensures nick in c.members && members <= c.members
      ensures c.members - {nick} == members - {nick}
      ensures c.owner == owner && c.isPrivate == isPrivate
    {
      ChannelInfo(members + {nick}, owner, isPrivate)
    }

    /** The channel after nick is removed; the owner is left as it was, even when it is nick. */
    function WithoutMember(nick: string): (c: ChannelInfo)
      ensures nick !in c.members && c.members <= members
      ensures c.members + {nick} == members + {nick}
      ensures c.owner == owner && c.isPrivate == isPrivate
    {
      if nick in members then ChannelInfo(members - {nick}, owner, isPrivate) else this
    }

    /** The channel with a new owner; membership and privacy are untouched. */
    function WithOwner(nick: string): (c: ChannelInfo)
      ensures c.owner == nick && c.members == members && c.isPrivate == isPrivate
    {
      ChannelInfo(members, nick, isPrivate)
    }
  }

  lemma WithMemberIdempotent(c: ChannelInfo, nick: string)
    ensures c.WithMember(nick).WithMember(nick) == c.WithMember(nick)
    ensures nick in c.members ==> c.WithMember(nick) == c
  {
  }

  lemma WithoutAbsentMemberIsNoop(c: ChannelInfo, nick: string)
    requires nick !in c.members
    ensures c.WithoutMember(nick) == c
  {
  }

  /** Adding a member and then removing it again gives back the channel it started from. */
  lemma WithoutUndoesWith(c: ChannelInfo, nick: string)
    requires nick !in c.members
    ensures c.WithMember(nick).WithoutMember(nick) == c
  {
    assert c.WithMember(nick).WithoutMember(nick).members == c.members;
  }

  /** The mutable channel record. Privacy is a constant: it has no setter. */
  class Channel {
    var userList: set<string>
    var owner: string
    const isPrivate: bool

    function View(): ChannelInfo
      reads this
    {
      ChannelInfo(userList, owner, isPrivate)
    }

    constructor (owner: string, isPrivate: bool)
      ensures View() == ChannelInfo.Initial(owner, isPrivate)
    {
      this.isPrivate := isPrivate;
      this.owner := owner;
      this.userList := {owner};
    }

    method SetOwner(newOwner: string)
      modifies this
      ensures View() == old(View()).WithOwner(newOwner)
    {
      owner := newOwner;
    }

    method AddUser(nick: string)
      modifies this
      ensures View() == old(View()).WithMember(nick)
    {
      userList := userList + {nick};
    }

    method BanUser(nick: string)
      modifies this
      ensures View() == old(View()).WithoutMember(nick)
    {
      if nick in userList {
        userList := userList - {nick};
      }
    }
  }
}
