/** Short sessions with the bot, checked against the handlers' contracts
    alone: what a client can rely on. Names are parameters, already in the
    lower-cased form the bot keys its maps by. */
module Scenarios {
  import opened Js
  import opened Irc
  import opened Topic
  import opened Commands
  import opened Modes
  import opened Bot

  /** A nick or channel name with no upper-case letter and no space. */
  predicate Plain(s: string)
  {
    Lower(s) == s && ' ' !in s
  }

  /** A NAMES reply in which `op` and `me` both hold "@". */
  lemma NamesReply(op: string, me: string)
    requires Plain(op) && Plain(me)
    ensures NamedOperators([Member(op, "@"), Member(me, "@")]) == [op, me]
  {
    var names := [Member(op, "@"), Member(me, "@")];
    assert "@" == OperatorPrefixes[2];
    assert names[..1][..0] == [];
    assert NamedOperators(names[..1]) == [op];
    assert names[..1] == [Member(op, "@")];
  }

  /** The bot `me` joins `channel` with `template`, and the NAMES reply lists
      it and `op` as operators. */
  method SetUp(me: string, op: string, channel: string, template: string, jokes: seq<string>)
    returns (bot: TopicBot)
    requires Plain(me) && Plain(op) && Plain(channel)
    ensures fresh(bot) && bot.Valid() && bot.nickname == me && bot.jokes == jokes
    ensures channel in bot.patterns && bot.patterns[channel] == Defined(template)
    ensures channel in bot.ops && bot.ops[channel] == Defined([op, me])
    ensures bot.log == [JoinChannel(channel)]
  {
    bot := new TopicBot(me, jokes, map[]);
    bot.Join(channel, Defined(template));
    assert bot.ops[channel].get + [op, me] == [op, me];
    NamesReply(op, me);
    var ok := bot.OnNames(channel, [Member(op, "@"), Member(me, "@")]);
  }

  /** Whatever a user without a rank says, the bot turns them away. */
  method NonOperatorIsDenied(me: string, op: string, other: string, channel: string, template: string,
                             jokes: seq<string>, text: string, pick: nat)
    requires Plain(me) && Plain(op) && Plain(other) && Plain(channel)
    requires other != op && other != me && ValidPick(jokes, pick)
  {
    var bot := SetUp(me, op, channel, template, jokes);
    var ok := bot.OnMessage(other, channel, text, pick);
    assert ok && bot.log == [JoinChannel(channel), Say(channel, AccessDenied(other))];
    assert bot.patterns[channel] == Defined(template) && bot.ops[channel] == Defined([op, me]);
  }

  /** "?join <target>" from an operator joins the target with no template
      yet and announces there who asked. */
  method OperatorJoinsChannel(me: string, op: string, channel: string, template: string,
                              jokes: seq<string>, target: string, pick: nat)
    requires Plain(me) && Plain(op) && Plain(channel) && Plain(target) && ValidPick(jokes, pick)
  {
    var bot := SetUp(me, op, channel, template, jokes);
    ParseJoinChannel(target);
    var ok := bot.OnMessage(op, channel, "?join " + target, pick);
    assert ok && bot.log == [JoinChannel(channel), JoinChannel(target), Say(target, JoinRequested(op))];
    assert bot.patterns[target] == Undefined && bot.ops[target] == Defined([]);
  }

  /** A "?sync..." from an operator, with the bot an operator too, sets the
      topic to the template with the drawn joke in its placeholder. */
  method OperatorSyncs(bot: TopicBot, nick: string, channel: string, a: string, b: string,
                       text: string, pick: nat)
    requires bot.Valid() && Plain(channel) && Plain(nick) && ValidPick(bot.jokes, pick)
    requires channel in bot.patterns && bot.patterns[channel] == Defined(a + Placeholder + b) && '{' !in a
    requires IsOperator(bot.ops, channel, nick) && IsOperator(bot.ops, channel, bot.nickname)
    requires "?sync" <= text
    modifies bot
    ensures bot.log == old(bot.log) + [SetTopic(channel, a + Joke(bot.jokes, pick) + b)]
  {
    ParseSync(text);
    RenderTemplate(a, b, Joke(bot.jokes, pick));
    var ok := bot.OnMessage(nick, channel, text, pick);
  }

  /** "+o <nick>" in a channel the bot has joined makes the nick an
      operator there and keeps every operator it had. */
  method Promote(bot: TopicBot, channel: string, nick: string)
    requires bot.Valid() && Plain(channel) && Plain(nick)
    requires channel in bot.ops && bot.ops[channel].Defined?
    modifies bot
    ensures bot.Valid() && bot.patterns == old(bot.patterns)
    ensures IsOperator(bot.ops, channel, nick)
    ensures forall other :: IsOperator(old(bot.ops), channel, other) ==> IsOperator(bot.ops, channel, other)
  {
    SplitWord(nick);
    assert Bound("o", [nick]) == 1 && "o"[0] in OperatorModes;
    assert Granted("o", [nick], 1) == [nick];
    var ok := bot.OnModeGrant(channel, "o", nick);
    assert bot.ops[channel] == Defined(old(bot.ops)[channel].get + [nick]);
  }

  /** After "+o <nick>", that nick's "?sync..." is carried out. */
  method PromotedUserSyncs(me: string, op: string, nick: string, channel: string, a: string, b: string,
                           jokes: seq<string>, text: string, pick: nat)
    requires Plain(me) && Plain(op) && Plain(nick) && Plain(channel) && '{' !in a
    requires "?sync" <= text && ValidPick(jokes, pick)
  {
    var bot := SetUp(me, op, channel, a + Placeholder + b, jokes);
    assert IsOperator(bot.ops, channel, me);
    Promote(bot, channel, nick);
    OperatorSyncs(bot, nick, channel, a, b, text, pick);
    assert bot.log[|bot.log| - 1] == SetTopic(channel, a + Joke(jokes, pick) + b);
  }
}
