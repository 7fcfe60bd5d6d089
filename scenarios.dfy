/** Whole runs of the server from an empty state, following the scenarios of the server's tests. */
module Scenarios {
  import opened Names
  import opened Protocol
  import opened Channels
  import opened ServerSpec
  import opened Server

  const Empty := State(map[], map[])

  /** Connections 0, 1 and 2 register in turn, each under the nickname registerUser hands it. */
  function OneUser(): State {
    Connect(Empty, 0, "User0").next
  }

  function TwoUsers(): State {
    Connect(OneUser(), 1, "User1").next
  }

  function ThreeUsers(): State {
    Connect(TwoUsers(), 2, "User2").next
  }

  /** The nicknames of OneUser, TwoUsers and ThreeUsers are those registerUser chooses. */
  ghost predicate DefaultNicknamesChosen() {
    && IsNextDefaultName(Empty.users.Values, "User0")
    && IsNextDefaultName(OneUser().users.Values, "User1")
    && IsNextDefaultName(TwoUsers().users.Values, "User2")
  }

  /** "User0", "User1" and "User2" are the nicknames the first three registrations receive. */
  lemma DefaultRegistrations()
    ensures DefaultNicknamesChosen()
  {
    assert DefaultName(0) == "User0" by { assert DecimalString(0) == [DigitChar(0)]; }
    assert DefaultName(1) == "User1" by { assert DecimalString(1) == [DigitChar(1)]; }
    assert DefaultName(2) == "User2" by { assert DecimalString(2) == [DigitChar(2)]; }
    assert IsLeastFree(Empty.users.Values, 0);
    assert OneUser().users.Values == {"User0"} by {
      var u := OneUser().users;
      assert u.Keys == {0} && u[0] == "User0";
      assert "User0" in u.Values;
    }
    assert IsLeastFree(OneUser().users.Values, 1);
    assert TwoUsers().users.Values == {"User0", "User1"} by {
      var u := TwoUsers().users;
      assert u.Keys == {0, 1} && u[0] == "User0" && u[1] == "User1";
      assert "User0" in u.Values && "User1" in u.Values;
    }
    assert IsLeastFree(TwoUsers().users.Values, 2);
  }

  /**
   * Three registrations on a fresh server, through the server object itself: the replies
   * name "User0", "User1" and "User2", and the state reached is ThreeUsers.
   */
  method RegisterThree() returns (m: ServerModel, nicknames: seq<string>)
    ensures nicknames == ["User0", "User1", "User2"]
    ensures m.Valid() && m.Abstract() == ThreeUsers()
  {
    DefaultRegistrations();
    m := new ServerModel();
    var b0 := m.RegisterUser(0);
    NextDefaultNameProperties(Empty.users.Values, b0.nickname, "User0");
    var b1 := m.RegisterUser(1);
    NextDefaultNameProperties(OneUser().users.Values, b1.nickname, "User1");
    var b2 := m.RegisterUser(2);
    NextDefaultNameProperties(TwoUsers().users.Values, b2.nickname, "User2");
    nicknames := [b0.nickname, b1.nickname, b2.nickname];
  }

  /** User0 creates public channels "1" and "2". */
  function WithTwoChannels(s: State): State {
    Create(Create(s, CreateCommand(0, "User0", "1", false)).next, CreateCommand(0, "User0", "2", false)).next
  }

  function TwoChannels(): State {
    WithTwoChannels(ThreeUsers())
  }

  /** ... and then User1 and User2 join channel "1". */
  function Crowded(): State {
    var s := Join(TwoChannels(), JoinCommand(1, "User1", "1")).next;
    Join(s, JoinCommand(2, "User2", "1")).next
  }

  lemma TwoChannelsState()
    ensures DefaultNicknamesChosen()
    ensures TwoChannels() == State(map["1" := ChannelInfo({"User0"}, "User0", false),
                                       "2" := ChannelInfo({"User0"}, "User0", false)],
                                   map[0 := "User0", 1 := "User1", 2 := "User2"])
  {
    DefaultRegistrations();
    assert ValidName("1") && ValidName("2");
  }

  lemma CrowdedState()
    ensures Crowded() == State(map["1" := ChannelInfo({"User0", "User1", "User2"}, "User0", false),
                                   "2" := ChannelInfo({"User0"}, "User0", false)],
                               map[0 := "User0", 1 := "User1", 2 := "User2"])
  {
    var s3 := TwoChannels();
    TwoChannelsState();
    var s4 := Join(s3, JoinCommand(1, "User1", "1")).next;
    assert s4.channels == s3.channels["1" := s3.channels["1"].WithMember("User1")];
    assert s4.channels["1"].members == {"User0", "User1"};
    var s5 := Join(s4, JoinCommand(2, "User2", "1")).next;
    assert s5.channels == s4.channels["1" := s4.channels["1"].WithMember("User2")];
    assert s5.channels["1"].members == {"User0", "User1", "User2"};
  }

  /** User2 shares channel "1" with User0 and User1 and is in no other channel. */
  lemma CrowdedSharers()
    ensures Sharers(Crowded().channels, "User2") == {"User0", "User1", "User2"}
  {
    var t := Crowded().channels;
    CrowdedState();
    assert "1" in t && "User2" in t["1"].members;
    assert "User2" !in t["2"].members;
  }

  /** When User2 disconnects, User0 and User1 are told. The departing user is not. */
  lemma DeregisterNotifyScenario()
    ensures Disconnect(Crowded(), 2).reply == Disconnected("User2", {"User0", "User1"})
  {
    CrowdedState();
    DisconnectRecipients(Crowded(), 2);
    CrowdedSharers();
    assert {"User0", "User1", "User2"} - {"User2"} == {"User0", "User1"};
  }

  /** When User0, the owner of both channels, disconnects, no channel is left. */
  lemma OwnerDeregisterScenario()
    ensures Disconnect(Crowded(), 0).next.channels == map[]
  {
    var s := Crowded();
    CrowdedState();
    assert OwnedBy(s.channels["1"], "User0") && OwnedBy(s.channels["2"], "User0");
  }

  /** User1 joins "2"; User0 renames to "cis120": the channel lists the new name in place of the old. */
  lemma NickInChannelsScenario()
    ensures
      var s := Join(WithTwoChannels(TwoUsers()), JoinCommand(1, "User1", "2")).next;
      var r := Rename(s, NicknameCommand(0, "User0", "cis120"));
      "2" in r.next.channels && r.next.channels["2"].members == {"User1", "cis120"}
  {
    DefaultRegistrations();
    assert ValidName("1") && ValidName("2");
    var s2 := WithTwoChannels(TwoUsers());
    assert s2.channels == map["1" := ChannelInfo({"User0"}, "User0", false),
                              "2" := ChannelInfo({"User0"}, "User0", false)];
    var s := Join(s2, JoinCommand(1, "User1", "2")).next;
    assert s.channels == s2.channels["2" := s2.channels["2"].WithMember("User1")];
    assert s.channels["2"].members == {"User0", "User1"};
    var cmd := NicknameCommand(0, "User0", "cis120");
    assert ValidName("cis120");
    assert "cis120" !in s.users.Values;
    RenameSucceeds(s, cmd);
    var t := RenameTable(s.channels, "User0", "cis120");
    assert t["2"] == Renamed(s.channels["2"], "User0", "cis120");
    assert t["2"].members == {"User1", "cis120"};
  }

  /** User0 creates "java", User1 joins it; when User0, its owner, leaves, no channel is left. */
  lemma LeaveOwnerScenario()
    ensures
      var s1 := Create(TwoUsers(), CreateCommand(0, "User0", "java", false)).next;
      var s2 := Join(s1, JoinCommand(1, "User1", "java")).next;
      Leave(s2, LeaveCommand(0, "User0", "java")).next.channels == map[]
  {
    var s := TwoUsers();
    assert ValidName("java");
    var s1 := Create(s, CreateCommand(0, "User0", "java", false)).next;
    assert s1.channels == map["java" := ChannelInfo({"User0"}, "User0", false)];
    var s2 := Join(s1, JoinCommand(1, "User1", "java")).next;
    assert s2.channels.Keys == {"java"} && s2.channels["java"].owner == "User0";
    assert "User0" in s2.channels["java"].members;
  }

  /** User0 creates the private channel "java" and kicks themself: the channel is deleted. */
  lemma KickOwnChannelScenario()
    ensures
      var s1 := Create(OneUser(), CreateCommand(0, "User0", "java", true)).next;
      var r := Kick(s1, KickCommand(0, "User0", "java", "User0"));
      r.reply == Okay(KickCommand(0, "User0", "java", "User0"), {"User0"}) && r.next.channels == map[]
  {
    var s := OneUser();
    assert "User0" in s.users.Values by { assert s.users[0] == "User0"; }
    assert ValidName("java");
    var s1 := Create(s, CreateCommand(0, "User0", "java", true)).next;
    assert s1.channels == map["java" := ChannelInfo({"User0"}, "User0", true)];
  }
}
