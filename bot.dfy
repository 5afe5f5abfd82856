/** The bot of bot.js: the module-level maps `patterns` and `ops`, the
    template files, and the handlers that change them. Every outgoing IRC
    request is appended to `log`. A handler that would throw a TypeError in
    JavaScript (a method called on `undefined` or `null`) returns `ok ==
    false`, keeping whatever it changed before the throw. */
module Bot {
  import opened Js
  import opened Irc
  import opened Topic
  import opened Commands
  import opened Modes
  import opened Store
  import opened Scheduler

  class TopicBot {
    /** config.nickname */
    const nickname: string
    /** The joke pool read from jokes.json at start. */
    const jokes: seq<string>
    /** The topic template of each channel, keyed by lower-cased name. */
    var patterns: map<string, Value<string>>
    /** The lower-cased operator nicks of each channel, keyed by lower-cased
        name; a list, so a nick can be listed more than once. */
    var ops: map<string, Value<seq<string>>>
    /** The files under ./channel/, by file name. */
    var files: map<string, string>
    /** What the bot has asked the IRC client to do, oldest first. */
    var log: seq<Action>

    /** Both maps are only ever written at lower-cased keys. */
    ghost predicate Valid()
      reads this
    {
      LowerKeys(patterns) && LowerKeys(ops)
    }

    constructor (nickname: string, jokes: seq<string>, files: map<string, string>)
      ensures Valid()
      ensures this.nickname == nickname && this.jokes == jokes && this.files == files
      ensures patterns == map[] && ops == map[] && log == []
    {
      this.nickname := nickname;
      this.jokes := jokes;
      this.files := files;
      patterns := map[];
      ops := map[];
      log := [];
    }

    /** `setPattern(channel, pattern)`: stores the template in memory and in
        the channel's file; nothing else changes. */
    method SetPattern(channel: string, pattern: string)
      requires Valid()
      modifies this
      ensures Valid()
      ensures patterns == old(patterns)[Lower(channel) := Defined(pattern)]
      ensures files == Write(old(files), channel, pattern)
      ensures ops == old(ops) && log == old(log)
    {
      LowerIdempotent(channel);
      patterns := patterns[Lower(channel) := Defined(pattern)];
      files := Write(files, channel, pattern);
    }

    /** `syncPattern(channel)`: without operator status nothing happens;
        otherwise the stored template, its first placeholder filled with the
        drawn joke, is sent as the topic. */
    method SyncPattern(channel: string, pick: nat) returns (ok: bool)
      requires Valid() && ValidPick(jokes, pick)
      modifies this`log
      ensures !IsOperator(ops, channel, nickname) ==> ok && log == old(log)
      ensures IsOperator(ops, channel, nickname) && Get(patterns, Lower(channel)).Defined?
              ==> ok && log == old(log) + [SetTopic(channel, Render(Get(patterns, Lower(channel)).get, Joke(jokes, pick)))]
      ensures ok == !Sync(nickname, jokes, patterns, ops, channel, pick).Fault?
      ensures log == old(log) + SyncActions(channel, Sync(nickname, jokes, patterns, ops, channel, pick))
    {
      ok := true;
      if !Contains(Get(ops, Lower(channel)), Lower(nickname)) {
        return;
      }
      var pattern := Get(patterns, Lower(channel));
      if !pattern.Defined? {
        ok := false;
        return;
      }
      log := log + [SetTopic(channel, Render(pattern.get, Joke(jokes, pick)))];
    }

    /** `join(channel, pattern)`: the template is set (overwriting any), the
        operator list starts empty, and the client joins. */
    method Join(channel: string, pattern: Value<string>)
      requires Valid()
      modifies this
      ensures Valid()
      ensures patterns == old(patterns)[Lower(channel) := pattern]
      ensures ops == old(ops)[Lower(channel) := Defined([])]
      ensures files == old(files) && log == old(log) + [JoinChannel(channel)]
    {
      LowerIdempotent(channel);
      patterns := patterns[Lower(channel) := pattern];
      ops := ops[Lower(channel) := Defined([])];
      log := log + [JoinChannel(channel)];
    }

    /** `part(channel)`: both entries become `null`, the file named by the
        lower-cased channel is deleted (so a file written under a mixed-case
        name stays), and the client parts. */
    method Part(channel: string)
      requires Valid()
      modifies this
      ensures Valid()
      ensures patterns == old(patterns)[Lower(channel) := Null]
      ensures ops == old(ops)[Lower(channel) := Null]
      ensures files == UnlinkAsWritten(old(files), channel)
      ensures log == old(log) + [PartChannel(channel)]
    {
      LowerIdempotent(channel);
      patterns := patterns[Lower(channel) := Null];
      ops := ops[Lower(channel) := Null];
      files := UnlinkAsWritten(files, channel);
      log := log + [PartChannel(channel)];
    }

    /** The hourly job: visits the channels in the order `order` (the key
        order of `patterns`) and syncs those whose template holds the
        placeholder, drawing `picks[i]` for the `i`-th. */
    method Sweep(order: seq<string>, picks: seq<nat>) returns (ok: bool)
      requires Valid() && SweepInputs(jokes, patterns, order, picks)
      requires forall k :: k in patterns ==> k in order
      requires forall i, j :: 0 <= i < j < |order| ==> order[i] != order[j]
      modifies this`log
      ensures var run := Swept(nickname, jokes, patterns, ops, order, picks, |order|);
        ok == run.ok && log == old(log) + run.actions
    {
      ghost var P, O := patterns, ops;
      var i := 0;
      while i < |order|
        invariant 0 <= i <= |order| && patterns == P && ops == O
        invariant Swept(nickname, jokes, P, O, order, picks, i).ok
        invariant log == old(log) + Swept(nickname, jokes, P, O, order, picks, i).actions
      {
        var channel := order[i];
        var value := patterns[channel];
        SweptRound(nickname, jokes, P, O, order, picks, i);
        if !value.Defined? {
          SweptStaysStopped(nickname, jokes, P, O, order, picks, i + 1, |order|);
          return false;
        }
        if IndexOf(value.get, Placeholder) >= 0 {
          assert Lower(channel) == channel;
          var synced := SyncPattern(channel, picks[i]);
        }
        i := i + 1;
      }
      return true;
    }

    /** The `message#` handler: a sender who is not an operator of the
        channel gets one denial and nothing else happens; an operator's
        message is carried out as `Parse` reads it. */
    method OnMessage(nick: string, to: string, text: string, pick: nat) returns (ok: bool)
      requires Valid() && ValidPick(jokes, pick)
      modifies this
      ensures Valid()
      ensures !IsOperator(old(ops), to, nick) ==>
        && ok && patterns == old(patterns) && ops == old(ops) && files == old(files)
        && log == old(log) + [Say(to, AccessDenied(nick))]
      ensures IsOperator(old(ops), to, nick) ==>
        match Parse(text)
        case ShowPattern =>
          && ok && patterns == old(patterns) && ops == old(ops) && files == old(files)
          && log == old(log) + [Say(to, CurrentPattern(Get(old(patterns), Lower(to))))]
        case NewPattern(pattern) =>
          && ok && patterns == old(patterns)[Lower(to) := Defined(pattern)] && ops == old(ops)
          && files == Write(old(files), to, pattern)
          && log == old(log) + (if IsOperator(old(ops), to, nickname)
                                then [SetTopic(to, Render(pattern, Joke(jokes, pick)))] else [])
        case SyncNow =>
          && patterns == old(patterns) && ops == old(ops) && files == old(files)
          && var r := Sync(nickname, jokes, old(patterns), old(ops), to, pick);
             ok == !r.Fault? && log == old(log) + SyncActions(to, r)
        case JoinUsage =>
          && ok && patterns == old(patterns) && ops == old(ops) && files == old(files)
          && log == old(log) + [Say(to, NoChannelSpecified(nick))]
        case JoinRequest(channel) =>
          && ok && patterns == old(patterns)[Lower(channel) := Undefined]
          && ops == old(ops)[Lower(channel) := Defined([])] && files == old(files)
          && log == old(log) + [JoinChannel(channel), Say(channel, JoinRequested(nick))]
        case PartRequest =>
          && ok && patterns == old(patterns)[Lower(to) := Null] && ops == old(ops)[Lower(to) := Null]
          && files == UnlinkAsWritten(old(files), to)
          && log == old(log) + [Say(to, Leaving(nick)), PartChannel(to)]
        case Ignore =>
          && ok && patterns == old(patterns) && ops == old(ops) && files == old(files) && log == old(log)
    {
      ok := true;
      if !Contains(Get(ops, Lower(to)), Lower(nick)) {
        log := log + [Say(to, AccessDenied(nick))];
        return;
      }
      match Parse(text)
      case ShowPattern =>
        log := log + [Say(to, CurrentPattern(Get(patterns, Lower(to))))];
      case NewPattern(pattern) =>
        SetPattern(to, pattern);
        ok := SyncPattern(to, pick);
      case SyncNow =>
        ok := SyncPattern(to, pick);
      case JoinUsage =>
        log := log + [Say(to, NoChannelSpecified(nick))];
      case JoinRequest(channel) =>
        Join(channel, Undefined);
        log := log + [Say(channel, JoinRequested(nick))];
      case PartRequest =>
        log := log + [Say(to, Leaving(nick))];
        Part(to);
      case Ignore =>
    }

    /** The `topic` handler: a channel without a template (`undefined` or
        `null`) takes the topic it reports as its template. */
    method OnTopic(channel: string, topic: string)
      requires Valid()
      modifies this
      ensures Valid()
      ensures !old(Get(patterns, Lower(channel))).Defined? ==>
        patterns == old(patterns)[Lower(channel) := Defined(topic)] && files == Write(old(files), channel, topic)
      ensures old(Get(patterns, Lower(channel))).Defined? ==> patterns == old(patterns) && files == old(files)
      ensures ops == old(ops) && log == old(log)
    {
      if !Get(patterns, Lower(channel)).Defined? {
        SetPattern(channel, topic);
      }
    }

    /** The `names` handler: every member shown with a rank sigil is pushed
        onto the channel's operator list. */
    method OnNames(channel: string, names: seq<Member>) returns (ok: bool)
      requires Valid()
      modifies this`ops
      ensures Valid()
      ensures var key := Lower(channel);
        if Get(old(ops), key).Defined?
        then ok && ops == old(ops)[key := Defined(old(ops)[key].get + NamedOperators(names))]
        else ops == old(ops) && (ok <==> forall i :: 0 <= i < |names| ==> names[i].prefix !in OperatorPrefixes)
    {
      var key := Lower(channel);
      LowerIdempotent(channel);
      var listed := Get(ops, key).Defined?;
      var i := 0;
      assert listed ==> old(ops)[key].get + NamedOperators(names[..0]) == old(ops)[key].get;
      while i < |names|
        invariant 0 <= i <= |names| && Valid()
        invariant listed ==> ops == old(ops)[key := Defined(old(ops)[key].get + NamedOperators(names[..i]))]
        invariant !listed ==> ops == old(ops) && forall j :: 0 <= j < i ==> names[j].prefix !in OperatorPrefixes
      {
        assert names[..i + 1][..i] == names[..i];
        if names[i].prefix in OperatorPrefixes {
          if !listed {
            return false;
          }
          assert NamedOperators(names[..i + 1]) == NamedOperators(names[..i]) + [Lower(names[i].nick)];
          ops := ops[key := Defined(ops[key].get + [Lower(names[i].nick)])];
          assert ops[key].get == old(ops)[key].get + NamedOperators(names[..i + 1]);
        } else {
          assert NamedOperators(names[..i + 1]) == NamedOperators(names[..i]);
        }
        i := i + 1;
      }
      assert names[..i] == names;
      return true;
    }

    /** The `+mode` handler: for each letter that grants an operator rank,
        the argument at the same position is pushed onto the list. */
    method OnModeGrant(channel: string, mode: string, argument: string) returns (ok: bool)
      requires Valid()
      modifies this`ops
      ensures Valid()
      ensures var key, args := Lower(channel), Split(argument);
        var n := Bound(mode, args);
        if Get(old(ops), key).Defined?
        then ok && ops == old(ops)[key := Defined(old(ops)[key].get + Granted(mode, args, n))]
        else ops == old(ops) && (ok <==> forall i :: 0 <= i < n ==> mode[i] !in OperatorModes)
    {
      var key, args := Lower(channel), Split(argument);
      LowerIdempotent(channel);
      var listed := Get(ops, key).Defined?;
      var i := 0;
      assert listed ==> old(ops)[key].get + Granted(mode, args, 0) == old(ops)[key].get;
      while i < |mode|
        invariant 0 <= i <= |mode| && i <= |args| && Valid()
        invariant listed ==> ops == old(ops)[key := Defined(old(ops)[key].get + Granted(mode, args, i))]
        invariant !listed ==> ops == old(ops) && forall j :: 0 <= j < i ==> mode[j] !in OperatorModes
      {
        if i >= |args| {
          break;
        }
        if mode[i] in OperatorModes {
          if !listed {
            return false;
          }
          assert Granted(mode, args, i + 1) == Granted(mode, args, i) + [Lower(args[i])];
          ops := ops[key := Defined(ops[key].get + [Lower(args[i])])];
          assert ops[key].get == old(ops)[key].get + Granted(mode, args, i + 1);
        } else {
          assert Granted(mode, args, i + 1) == Granted(mode, args, i);
        }
        i := i + 1;
      }
      assert i == Bound(mode, args);
      return true;
    }

    /** The `-mode` handler: for each letter that takes an operator rank,
        `splice(indexOf(nick), 1)` removes the first listing of the argument
        at the same position, or the last entry when it is not listed. */
    method OnModeRevoke(channel: string, mode: string, argument: string) returns (ok: bool)
      requires Valid()
      modifies this`ops
      ensures Valid()
      ensures var key, args := Lower(channel), Split(argument);
        var n := Bound(mode, args);
        if Get(old(ops), key).Defined?
        then ok && ops == old(ops)[key := Defined(Revoked(old(ops)[key].get, mode, args, n))]
        else ops == old(ops) && (ok <==> forall i :: 0 <= i < n ==> mode[i] !in OperatorModes)
    {
      var key, args := Lower(channel), Split(argument);
      LowerIdempotent(channel);
      var listed := Get(ops, key).Defined?;
      var i := 0;
      while i < |mode|
        invariant 0 <= i <= |mode| && i <= |args| && Valid()
        invariant listed ==> ops == old(ops)[key := Defined(Revoked(old(ops)[key].get, mode, args, i))]
        invariant !listed ==> ops == old(ops) && forall j :: 0 <= j < i ==> mode[j] !in OperatorModes
      {
        if i >= |args| {
          break;
        }
        if mode[i] in OperatorModes {
          if !listed {
            return false;
          }
          var list := ops[key].get;
          ops := ops[key := Defined(Splice(list, IndexOfSeq(list, Lower(args[i]))))];
        }
        i := i + 1;
      }
      assert i == Bound(mode, args);
      return true;
    }
  }
}
