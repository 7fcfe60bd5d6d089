/** The values exchanged with the transport: client commands, response codes and broadcasts. */
module Protocol {

  datatype Option<T> = None | Some(value: T)

  /** The fixed taxonomy of error codes a command can be answered with. */
  datatype ServerResponse =
    | InvalidName
    | NameAlreadyInUse
    | NoSuchChannel
    | NoSuchUser
    | ChannelAlreadyExists
    | UserNotInChannel
    | UserNotOwner
    | JoinPrivateChannel
    | InviteToPublicChannel

  /**
   * One variant per client intent. Every command carries the sender's connection id and
   * the sender's current nickname, as the transport decoded them.
   */
  datatype Command =
    | NicknameCommand(senderId: int, sender: string, newNickname: string)
    | CreateCommand(senderId: int, sender: string, channel: string, inviteOnly: bool)
    | JoinCommand(senderId: int, sender: string, channel: string)
    | MessageCommand(senderId: int, sender: string, channel: string, message: string)
    | LeaveCommand(senderId: int, sender: string, channel: string)
    | InviteCommand(senderId: int, sender: string, channel: string, userToInvite: string)
    | KickCommand(senderId: int, sender: string, channel: string, userToKick: string)

  /** What the transport is told to send, and to whom. */
  datatype Broadcast =
    | Connected(nickname: string)
    | Disconnected(nickname: string, recipients: set<string>)
    | Names(command: Command, recipients: set<string>, owner: string)
    | Okay(command: Command, recipients: set<string>)
    | Error(command: Command, code: ServerResponse)
}
