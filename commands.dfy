/** How the `message#` handler reads a channel message: the prefix tests
    and the `split(' ')` arity checks, in the order the handler makes them. */
module Commands {
  import opened Js

  datatype Command =
    | ShowPattern                  // "?topic" with no argument: say the stored pattern
    | NewPattern(pattern: string)  // "?topic <pattern>": store it and sync
    | SyncNow                      // "?sync"
    | JoinUsage                    // "?join" without exactly one argument
    | JoinRequest(channel: string) // "?join <channel>"
    | PartRequest                  // "?part"
    | Ignore                       // anything else

  /** The command a message asks for. Matching is by `indexOf(...) == 0`, so
      "?topicality" counts as "?topic" too. */
  function Parse(text: string): (c: Command)
    ensures c != Ignore ==> |text| >= 5 && text[0] == '?'
    ensures c.NewPattern? ==> c.pattern != ""
    ensures c.JoinRequest? ==> ' ' !in c.channel
  {
    var words := Split(text);
    if IndexOf(text, "?topic") == 0 then
      var pattern := Substring(text, |words[0]| + 1);
      if |words| < 2 || pattern == "" then ShowPattern else NewPattern(pattern)
    else if IndexOf(text, "?sync") == 0 then SyncNow
    else if IndexOf(text, "?join") == 0 then
      if |words| != 2 then JoinUsage else JoinRequest(words[1])
    else if IndexOf(text, "?part") == 0 then PartRequest
    else Ignore
  }

  /** Two prefixes that differ at some position cannot both start a text. */
  lemma OtherPrefix(text: string, p: string, q: string, k: nat)
    requires p <= text && k < |p| && k < |q| && p[k] != q[k]
    ensures !(q <= text) && IndexOf(text, q) != 0
  {
    assert text[k] == p[k];
    IndexOfZeroIsPrefix(text, q);
  }

  lemma {:induction false} NoSpaceNothingAfter(s: string)
    requires SpaceCount(s) == 0
    ensures AfterFirstSpace(s) == ""
  {
    if s != [] {
      NoSpaceNothingAfter(s[1..]);
    }
  }

  /** "?topic" stores everything after the first space as the pattern, and
      with nothing there it only shows the stored pattern. */
  lemma ParseTopic(text: string)
    requires "?topic" <= text
    ensures var arg := AfterFirstSpace(text);
      Parse(text) == if arg == "" then ShowPattern else NewPattern(arg)
  {
    IndexOfZeroIsPrefix(text, "?topic");
    SplitFirstWord(text);
    SplitCount(text);
    if SpaceCount(text) == 0 {
      NoSpaceNothingAfter(text);
    }
  }

  /** "?sync" always syncs; it takes no argument. */
  lemma ParseSync(text: string)
    requires "?sync" <= text
    ensures Parse(text) == SyncNow
  {
    OtherPrefix(text, "?sync", "?topic", 1);
    IndexOfZeroIsPrefix(text, "?sync");
  }

  /** "?join" joins the channel named after the one space, and answers with
      a usage error when there are no or several spaces. */
  lemma ParseJoin(text: string)
    requires "?join" <= text
    ensures Parse(text) == if SpaceCount(text) == 1 then JoinRequest(AfterFirstSpace(text)) else JoinUsage
  {
    OtherPrefix(text, "?join", "?topic", 1);
    OtherPrefix(text, "?join", "?sync", 1);
    IndexOfZeroIsPrefix(text, "?join");
    SplitCount(text);
    if SpaceCount(text) == 1 {
      SplitSecondWord(text);
    }
  }

  /** The command as an operator types it: "?join #channel". */
  lemma ParseJoinChannel(channel: string)
    requires ' ' !in channel
    ensures Parse("?join " + channel) == JoinRequest(channel)
  {
    var text := "?join " + channel;
    assert text == "?join" + " " + channel;
    SplitAfterWord("?join", channel);
    SplitWord(channel);
    assert "?join" <= text;
    OtherPrefix(text, "?join", "?topic", 1);
    OtherPrefix(text, "?join", "?sync", 1);
    IndexOfZeroIsPrefix(text, "?join");
  }

  /** "?part" always parts; it takes no argument. */
  lemma ParsePart(text: string)
    requires "?part" <= text
    ensures Parse(text) == PartRequest
  {
    OtherPrefix(text, "?part", "?topic", 1);
    OtherPrefix(text, "?part", "?sync", 1);
    OtherPrefix(text, "?part", "?join", 1);
    IndexOfZeroIsPrefix(text, "?part");
  }

  /** Only text starting with one of the four commands asks for anything. */
  lemma ParseIgnore(text: string)
    ensures Parse(text) == Ignore
        <==> !("?topic" <= text) && !("?sync" <= text) && !("?join" <= text) && !("?part" <= text)
  {
    IndexOfZeroIsPrefix(text, "?topic");
    IndexOfZeroIsPrefix(text, "?sync");
    IndexOfZeroIsPrefix(text, "?join");
    IndexOfZeroIsPrefix(text, "?part");
  }
}
