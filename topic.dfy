/** Topic rendering and the permission gate of `syncPattern`: the first
    `{joke}` of a channel's template is replaced by a joke, and the topic is
    sent only when the bot's own nick is among the channel's operators. */
module Topic {
  import opened Js
  import opened Irc

  const Placeholder: string := "{joke}"

  /** A template with the placeholder is refreshed by the hourly sweep. */
  predicate IsDynamic(pattern: string)
  {
    IndexOf(pattern, Placeholder) >= 0
  }

  /** `jokes[Math.floor(Math.random() * jokes.length)]` with the random draw
      given as `pick`: an index into the pool, or 0 when the pool is empty. */
  predicate ValidPick(jokes: seq<string>, pick: nat)
  {
    pick < |jokes| || (jokes == [] && pick == 0)
  }

  /** The joke drawn; an empty pool yields `undefined`, which `replace`
      turns into the text "undefined". */
  function Joke(jokes: seq<string>, pick: nat): (joke: string)
    requires ValidPick(jokes, pick)
    ensures jokes != [] ==> joke in jokes
    ensures jokes == [] ==> joke == "undefined"
  {
    if pick < |jokes| then jokes[pick] else "undefined"
  }

  /** `pattern.replace('{joke}', joke)`. */
  function Render(pattern: string, joke: string): (topic: string)
    ensures !IsDynamic(pattern) ==> topic == pattern
    ensures forall j :: IsFirstOccurrence(pattern, Placeholder, j)
              ==> topic == pattern[..j] + joke + pattern[j + |Placeholder|..]
  {
    ReplaceFirst(pattern, Placeholder, joke)
  }

  /** A template without the placeholder is sent as it is. */
  lemma RenderStatic(pattern: string, joke: string)
    requires !IsDynamic(pattern)
    ensures Render(pattern, joke) == pattern
  {
  }

  /** When nothing before the placeholder could start another one, exactly
      that placeholder is replaced by the joke. */
  lemma RenderTemplate(a: string, b: string, joke: string)
    requires '{' !in a
    ensures Render(a + Placeholder + b, joke) == a + joke + b
  {
    var s := a + Placeholder + b;
    assert s[|a|..|a| + |Placeholder|] == Placeholder;
    forall k | 0 <= k < |a|
      ensures !OccursAt(s, Placeholder, k)
    {
      assert s[k] == a[k] != '{';
      if k + |Placeholder| <= |s| {
        assert s[k..k + |Placeholder|][0] != Placeholder[0];
      }
    }
    assert IsFirstOccurrence(s, Placeholder, |a|);
    assert s[..|a|] == a;
    assert s[|a| + |Placeholder|..] == b;
  }

  /** A text without an opening brace holds no placeholder. */
  lemma NoBraceIsStatic(s: string)
    requires '{' !in s
    ensures !IsDynamic(s)
  {
    forall j | 0 <= j && j + |Placeholder| <= |s|
      ensures !OccursAt(s, Placeholder, j)
    {
      assert s[j] in s;
      assert s[j..j + |Placeholder|][0] != Placeholder[0];
    }
  }

  /** A template with one placeholder and no other brace, filled with a joke
      without braces, leaves no placeholder behind. */
  lemma RenderedIsStatic(a: string, b: string, joke: string)
    requires '{' !in a && '{' !in b && '{' !in joke
    ensures !IsDynamic(Render(a + Placeholder + b, joke))
  {
    RenderTemplate(a, b, joke);
    NoBraceIsStatic(a + joke + b);
  }

  /** In "{jo{joke}ke}" the first placeholder starts at index 3. */
  lemma NestedPlaceholderAt3()
    ensures IsFirstOccurrence("{jo{joke}ke}", Placeholder, 3)
  {
    var s := "{jo{joke}ke}";
    assert !OccursAt(s, Placeholder, 0) by { assert s[0..6][3] != Placeholder[3]; }
    assert !OccursAt(s, Placeholder, 1) by { assert s[1..7][0] != '{'; }
    assert !OccursAt(s, Placeholder, 2) by { assert s[2..8][0] != '{'; }
    assert s[3..9] == Placeholder;
  }

  /** Only the first occurrence is replaced, so text around it can form a
      new placeholder: "{jo{joke}ke}" with an empty joke renders "{joke}". */
  lemma RenderCanLeavePlaceholder()
    ensures IsDynamic(Render("{jo{joke}ke}", ""))
  {
    var s := "{jo{joke}ke}";
    NestedPlaceholderAt3();
    var r := Render(s, "");
    assert r == s[..3] + "" + s[9..];
    assert r[0..6] == Placeholder;
    assert OccursAt(r, Placeholder, 0);
  }

  /** The worked example: "Topic of the day: {joke}" with the joke "a". */
  lemma TopicOfTheDay()
    ensures Render("Topic of the day: {joke}", "a") == "Topic of the day: a"
  {
    var a := "Topic of the day: ";
    assert '{' !in a;
    RenderTemplate(a, "", "a");
    assert a + Placeholder + "" == "Topic of the day: {joke}";
    assert a + "a" + "" == "Topic of the day: a";
  }

  /** `_.contains(ops[channel.toLowerCase()], nick.toLowerCase())`. */
  predicate IsOperator(ops: map<string, Value<seq<string>>>, channel: string, nick: string)
  {
    Contains(Get(ops, Lower(channel)), Lower(nick))
  }

  /** What `syncPattern(channel)` does: nothing when the bot is not an
      operator there, a TypeError when the stored pattern is `undefined` or
      `null`, otherwise a TOPIC with the rendered pattern. */
  datatype SyncResult = Denied | Fault | Sent(topic: string)

  function Sync(nickname: string, jokes: seq<string>, patterns: map<string, Value<string>>,
                ops: map<string, Value<seq<string>>>, channel: string, pick: nat): (r: SyncResult)
    requires ValidPick(jokes, pick)
    ensures r == Denied <==> !IsOperator(ops, channel, nickname)
    ensures r == Fault <==> IsOperator(ops, channel, nickname) && !Get(patterns, Lower(channel)).Defined?
  {
    if !IsOperator(ops, channel, nickname) then Denied
    else match Get(patterns, Lower(channel))
      case Defined(pattern) => Sent(Render(pattern, Joke(jokes, pick)))
      case _ => Fault
  }

  /** The TOPIC action a sync emits, if any. */
  function SyncActions(channel: string, r: SyncResult): seq<Action>
  {
    if r.Sent? then [SetTopic(channel, r.topic)] else []
  }

  /** With the bot an operator and a template stored, the topic sent is that
      template with its first placeholder, at `j`, filled with a joke from
      the pool, or with "undefined" when the pool is empty. */
  lemma SyncSendsRenderedTemplate(nickname: string, jokes: seq<string>,
                                  patterns: map<string, Value<string>>, ops: map<string, Value<seq<string>>>,
                                  channel: string, pick: nat, pattern: string, j: int)
    requires ValidPick(jokes, pick)
    requires IsOperator(ops, channel, nickname)
    requires Get(patterns, Lower(channel)) == Defined(pattern) && IsFirstOccurrence(pattern, Placeholder, j)
    ensures exists joke :: (joke in jokes || (jokes == [] && joke == "undefined"))
              && Sync(nickname, jokes, patterns, ops, channel, pick)
                 == Sent(pattern[..j] + joke + pattern[j + |Placeholder|..])
  {
    var joke := Joke(jokes, pick);
    assert Sync(nickname, jokes, patterns, ops, channel, pick) == Sent(pattern[..j] + joke + pattern[j + |Placeholder|..]);
  }

  /** Without operator status nothing is sent, whatever is stored. */
  lemma SyncGate(nickname: string, jokes: seq<string>, patterns: map<string, Value<string>>,
                 ops: map<string, Value<seq<string>>>, channel: string, pick: nat)
    requires ValidPick(jokes, pick)
    ensures SyncActions(channel, Sync(nickname, jokes, patterns, ops, channel, pick)) != []
        <==> IsOperator(ops, channel, nickname) && Get(patterns, Lower(channel)).Defined?
  {
  }
}
