/** What the bot asks of the IRC client: the actions it emits, in order.
    The client itself (connection, framing, colours) is not modelled. */
module Irc {
  import opened Js

  /** The texts the bot says in a channel. */
  datatype Notice =
    | AccessDenied(nick: string)            // "(nick) You do not have access to this command."
    | CurrentPattern(pattern: Value<string>) // "The topic pattern is currently set to: " + pattern
    | NoChannelSpecified(nick: string)      // "(nick) No channel specified."
    | JoinRequested(nick: string)           // "nick requested me to join this channel."
    | Leaving(nick: string)                 // "(nick) Leaving ..."

  datatype Action =
    | SetTopic(channel: string, topic: string) // client.send('TOPIC', channel, topic)
    | Say(target: string, notice: Notice)      // client.say(target, text)
    | JoinChannel(channel: string)             // client.join(channel)
    | PartChannel(channel: string)             // client.part(channel)
}
