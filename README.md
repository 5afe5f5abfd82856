# irc-topicbot in Dafny

irc-topicbot is an IRC bot that keeps a topic template per channel.
Channel operators set the template with `?topic <pattern>`. Every hour the
bot replaces the first `{joke}` in each template with a random joke and sends
the result as the channel's new TOPIC. It also obeys `?sync`, `?join
<channel>` and `?part` from operators. It learns who the operators are from
NAMES replies and from `+mode` and `-mode` events. Everything lives in one
file, `bot.js`.

This project models that file's state and handlers:

- **js.dfy** (`Js`): the JavaScript built-ins the bot relies on, each with
  its exact edge cases.
  - `undefined`/`null`/defined property slots.
  - `toLowerCase` (ASCII), `substring`, `indexOf`.
  - `split(' ')` with its empty pieces.
  - `replace` of the first occurrence only.
  - `splice(indexOf(x), 1)`, which removes the last element when `x` is
    absent.
- **irc.dfy** (`Irc`): the requests the bot sends to the IRC client.
  - TOPIC, JOIN, PART.
  - The five notices it says in a channel.
- **topic.dfy** (`Topic`):
  - The joke draw and the rendering of a template.
  - The operator test.
  - What `syncPattern` sends.
- **store.dfy** (`Store`): the files under `./channel/`, as a map from file
  name to contents.
- **modes.dfy** (`Modes`): which nicks the `names`, `+mode` and `-mode`
  handlers push or splice.
- **commands.dfy** (`Commands`): how the `message#` handler reads a message.
  - The commands are recognised by prefix, in the order the source checks them.
  - Arguments are checked by the arity of `split(' ')`.
- **scheduler.dfy** (`Scheduler`): the hourly sweep over `patterns`.
- **bot.dfy** (`Bot`): the class `TopicBot`.
  - Fields: the `patterns` and `ops` dictionaries, the template files, and
    a log of outgoing requests.
  - One method per function and handler of `bot.js`.
  - A handler that would throw a `TypeError` returns `ok == false`. This
    happens when a method is called on `undefined` or `null`. Whatever the
    handler changed before the throw is kept. Nothing in `bot.js` catches
    the exception, so in Node it is uncaught; whether the process goes on
    after it is not modelled.
- **scenarios.dfy** (`Scenarios`): short sessions checked against the
  handlers' contracts alone.

Where the behaviour of `bot.js` differs from what one would expect of such a
bot, the model follows the code:

- The operator check in the `message#` handler comes before any command is
  recognised. A user without operator status therefore gets "You do not have
  access to this command." for every message they send, including ordinary
  chat. An operator's unrecognised text gets no reply.
- With an empty joke pool, `jokes[...]` is `undefined`. The placeholder is
  then replaced by the text `undefined`, not detected as an error.
- `?join <channel>` calls `join` without a template. The new channel's
  pattern is therefore `undefined`.
- A TOPIC event for that channel seeds the pattern with the reported topic.
  The `topic` handler tests `== undefined`, which `null` also passes. Until
  such an event arrives, the next hourly sweep throws when it reaches that
  channel. The `null` that `?part` leaves behind makes the next sweep throw
  there, and every later one too if the process survives the uncaught
  exception. A sweep that throws stops there and skips the channels after
  it (`Scheduler.SweptCompletes`).
- Only the first `{joke}` is replaced, so the text around it can form a new
  placeholder. A rendered topic is free of placeholders only under the
  conditions of `Topic.RenderedIsStatic`; `Topic.RenderCanLeavePlaceholder`
  gives a template that keeps one.
- `?part` deletes the file named by the lower-cased channel, while
  `?topic` wrote it under the name as typed. `Bot.TopicBot.Part` does the
  same, so a mixed-case channel's file survives (see "## Findings"; the
  intended removal is `Store.Unlink`).
- `-mode` of a nick that is not listed splices index -1. That removes the
  channel's last operator entry (`Modes.RevokeAbsentDropsLast`).

## Model

| member | source | states |
|---|---|---|
| Js.Lower | bot.js:47 | `toLowerCase` keeps the length and maps each character to its lower-case form |
| Js.LowerIdempotent | bot.js:47 | lower-casing an already lower-cased key gives the same key, so both address the same slot |
| Js.Substring | bot.js:144 | `substring(start)` is the text after the first `start` characters, and "" past the end |
| Js.IndexOf | bot.js:119 | `indexOf` returns the first position where the pattern occurs, and -1 exactly when it occurs nowhere |
| Js.IndexOfZeroIsPrefix | bot.js:142 | `indexOf(p) == 0` holds exactly when the text starts with `p` |
| Js.ReplaceFirst | bot.js:73 | `replace` leaves a text without the pattern unchanged; otherwise it replaces exactly the first occurrence |
| Js.Split | bot.js:130 | `split(' ')` gives at least one piece, and no piece contains a space |
| Js.JoinSplit | bot.js:130 | joining the pieces of `split(' ')` with spaces gives back the text |
| Js.SplitJoin | bot.js:130 | splitting space-free words joined by single spaces gives back the words |
| Js.SplitCount | bot.js:178 | `split(' ')` has one more piece than the text has spaces |
| Js.SplitFirstWord | bot.js:144 | `substring(messageEx[0].length + 1)` is the text after the first space |
| Js.SplitSecondWord | bot.js:187 | with exactly one space, `messageEx[1]` is the text after it |
| Js.IndexOfSeq | bot.js:251 | array `indexOf` gives the first index holding the element, and -1 exactly when it is absent |
| Js.Splice | bot.js:251 | `splice(start, 1)` removes one element unless the list is empty or `start` is past the end; `splice(-1, 1)` removes the last element |
| Js.Contains | bot.js:61 | `_.contains` of an `undefined` or `null` list is false; of a defined list, it holds exactly when some index holds the element |
| Js.RemoveFirst | bot.js:251 | `splice(indexOf(x), 1)` removes one copy of `x` at its first position when present, and the last element otherwise |
| Topic.Joke | bot.js:73 | the drawn joke is from the pool, or the text "undefined" when the pool is empty |
| Topic.RenderTemplate | bot.js:73 | in a template with no brace before its placeholder, exactly that placeholder becomes the joke |
| Topic.RenderStatic | bot.js:73 | a template without the placeholder is sent unchanged |
| Topic.NoBraceIsStatic | bot.js:119 | a text without an opening brace holds no placeholder |
| Topic.RenderedIsStatic | bot.js:73 | a template with one placeholder and no other brace, filled with a brace-free joke, holds no placeholder |
| Topic.RenderCanLeavePlaceholder | bot.js:73 | "{jo{joke}ke}" filled with "" still holds a placeholder |
| Topic.TopicOfTheDay | bot.js:73 | "Topic of the day: {joke}" with the joke "a" renders "Topic of the day: a" |
| Topic.Render | bot.js:73 | a template without the placeholder is unchanged; otherwise exactly its first placeholder is replaced by the joke |
| Topic.Sync | bot.js:59-77 | nothing is sent exactly when the bot is not an operator; the sync throws exactly when the bot is an operator and the template slot is `undefined` or `null` |
| Topic.SyncSendsRenderedTemplate | bot.js:59-77 | with the bot an operator and any stored template whose first placeholder is at `j`, the topic sent is the template with a pool joke (or "undefined" for an empty pool) in place of that placeholder |
| Topic.SyncGate | bot.js:61-67 | a topic is sent exactly when the bot is an operator of the channel and a template is stored |
| Store.Write | bot.js:50-52 | the channel's file (name without its sigil, case kept) now holds the template, and other files are unchanged |
| Store.UnlinkAsWritten | bot.js:102 | only the file with the lower-cased name is removed, and every other file keeps its contents |
| Store.Unlink | bot.js:102 | exactly the files whose names equal the channel's name up to case are removed; the others keep their contents |
| Store.PartKeepsMixedCaseFile | bot.js:102 | as written, the template saved for "#Foo" survives a part of "#Foo" |
| Store.SetThenPartLeavesNoFile | bot.js:45-106 | with the corrected unlink, after a save and a part, in any spelling of the channel, no file for it remains |
| Modes.Bound | bot.js:227-229 | the mode loops visit the letters and arguments up to the shorter of the two |
| Modes.Granted | bot.js:227-236 | the `+mode` loop pushes at most one nick per visited letter |
| Modes.GrantedMembers | bot.js:222-237 | `+mode` pushes a nick exactly when an operator-rank letter sits at the same position as one of its spellings |
| Modes.GrantedGrows | bot.js:227-236 | later rounds of the `+mode` loop only push: earlier pushes are a prefix of later ones |
| Modes.Revoked | bot.js:244-253 | each round of the `-mode` loop removes at most one entry, so the list loses at most `n` entries |
| Modes.RevokedShrinks | bot.js:239-254 | `-mode` never adds an entry to the operator list |
| Modes.RevokeGrantedAhead | bot.js:222-254 | demoting what was just promoted removes those entries, up to order, whatever follows them |
| Modes.GrantThenRevoke | bot.js:222-254 | a `-mode` with the letters and arguments of a `+mode` restores the operator list up to order |
| Modes.RevokeFreshGrantedAhead | bot.js:222-254 | when the promoted nicks were not listed, demoting them removes exactly their entries |
| Modes.GrantThenRevokeExact | bot.js:222-254 | when the promoted nicks were not listed, the matching `-mode` restores the list exactly |
| Modes.RevokeAbsentDropsLast | bot.js:251 | `-o` of an unlisted nick removes the last operator entry |
| Modes.NamedOperators | bot.js:214-219 | the names handler pushes at most one nick per member |
| Modes.NamedOperatorsMembers | bot.js:213-220 | the names handler pushes exactly the members shown with one of the four rank sigils |
| Commands.Parse | bot.js:130-203 | only text starting with "?" and at least five characters asks for a command; a new pattern is never empty; a requested channel holds no space |
| Commands.ParseTopic | bot.js:142-164 | "?topic" shows the stored pattern when nothing follows the first space, and otherwise sets all of that text as the pattern |
| Commands.ParseSync | bot.js:167-173 | any text starting "?sync" syncs |
| Commands.ParseJoin | bot.js:176-194 | "?join" joins the text after the space when there is exactly one space, and otherwise says "No channel specified." |
| Commands.ParseJoinChannel | bot.js:176-190 | "?join " followed by a space-free name joins that name |
| Commands.ParsePart | bot.js:197-203 | any text starting "?part" parts |
| Commands.ParseIgnore | bot.js:141-204 | a message is ignored exactly when it starts with none of the four commands |
| Scheduler.Swept | bot.js:117-124 | the first `n` rounds of the sweep send at most one TOPIC each |
| Scheduler.SweptStaysStopped | bot.js:117-124 | after a round has thrown, later rounds add nothing |
| Scheduler.SweptCompletes | bot.js:117-119 | the sweep runs to the end exactly when every visited pattern is defined |
| Scheduler.SweptOnlyRefreshes | bot.js:117-124 | every TOPIC of a sweep is the rendered template of a channel whose template has the placeholder and where the bot is an operator |
| Scheduler.SweptCoversDynamic | bot.js:117-124 | a sweep that runs to the end refreshes every such channel |
| Bot.TopicBot.constructor | bot.js:26-28 | the bot starts with empty dictionaries and nothing sent |
| Bot.TopicBot.SetPattern | bot.js:45-53 | the template is stored at the lower-cased channel and written to its file; operators and sent requests are unchanged |
| Bot.TopicBot.SyncPattern | bot.js:59-77 | without operator status nothing is sent; with it and a stored template the rendered topic is sent; a missing template throws |
| Bot.TopicBot.Join | bot.js:83-90 | the channel's template is set and its operator list emptied, and a JOIN is sent |
| Bot.TopicBot.Part | bot.js:96-106 | both slots become `null`, the file named by the lower-cased channel is removed (others keep their contents), and a PART is sent |
| Bot.TopicBot.Sweep | bot.js:112-125 | the requests sent and whether the job ran to the end are those of `Scheduler.Swept` |
| Bot.TopicBot.OnMessage | bot.js:128-204 | a non-operator gets one denial and nothing else changes; an operator's message changes the state and sends what its parsed command calls for |
| Bot.TopicBot.OnTopic | bot.js:206-211 | the reported topic becomes the template exactly when none is stored (`undefined` or `null`) |
| Bot.TopicBot.OnNames | bot.js:213-220 | the ranked members are appended to a known channel's list; for an unknown channel the handler throws exactly when a ranked member is present |
| Bot.TopicBot.OnModeGrant | bot.js:222-237 | the nicks of `Modes.Granted` are appended to a known channel's list; for an unknown channel the handler throws exactly when an operator letter is visited |
| Bot.TopicBot.OnModeRevoke | bot.js:239-254 | the list becomes `Modes.Revoked` of the old one; for an unknown channel the handler throws exactly when an operator letter is visited |
| Scenarios.NamesReply | bot.js:213-220 | a NAMES reply ranking two nicks "@" pushes both, in order |
| Scenarios.SetUp | bot.js:83-90 | after a join and a NAMES reply, the channel has its template and both ranked nicks as operators |
| Scenarios.OperatorSyncs | bot.js:166-173 | an operator's "?sync" with the bot an operator sends the template with the drawn joke in its placeholder |
| Scenarios.Promote | bot.js:222-237 | after "+o nick" the nick is an operator and everyone who was one still is |

## Left out

- Bot.TopicBot.OnMessage, Bot.TopicBot.Sweep, Bot.TopicBot.OnNames, Bot.TopicBot.OnModeGrant, Bot.TopicBot.OnModeRevoke, Bot.TopicBot.SyncPattern: `ok == false` stands for an uncaught `TypeError`. Whether the Node process survives it, and so whether later events and sweeps happen, is not modelled.
- The IRC client is not modelled. Outgoing requests are appended to `log`, and incoming events are calls of the handler methods.
- Colour codes (`irc.colors.wrap`) are not modelled. Notices are symbolic (`Irc.Notice`), and each constructor's comment gives its text.
- The `registered` handler (bot.js:256-269) is not modelled. It sends the user MODE and re-joins every channel that has a file under `./channel/`.
- Loading `jokes.json` and reading `config.js` are not modelled. The joke pool and the nickname are constructor arguments.
- File system asynchrony and errors are not modelled. `writeFile` and `unlink` are applied at once and always succeed.
- The hourly timing of the scheduler is not modelled. `Sweep` is one run of its callback.
- `Math.random` is not modelled. The drawn index is a parameter `pick`, limited by `Topic.ValidPick`.
- `console.log` output is not modelled.
- `$` substitution patterns in `String.prototype.replace` are not modelled. A joke containing `$&` or `$1` is inserted literally.
- Js.Lower: lower-cases ASCII letters only; JavaScript's Unicode case mapping is not modelled.
- Bot.TopicBot.Sweep: the iteration order of `_.each` over the object's keys is a parameter `order`. It is required to list each key exactly once; JavaScript's own key order is not modelled.
- Bot.TopicBot.OnNames: the NAMES reply is a sequence of nick and sigil pairs. The object of the source cannot hold a nick twice; the sequence can.

## Findings

| source | as written | input that shows it | evidently intended | confidence | as-written member | corrected member |
|---|---|---|---|---|---|---|
| bot.js:102 | `part` deletes `./channel/` + the lower-cased name without sigil, but `setPattern` (bot.js:50) wrote the file under the name with its case kept | `?topic x` in "#Foo", then `?part`: the file "Foo" survives, and the channel is joined again at the next start | the channel's template file is removed on part, whatever case its name was written in | medium, not executed; depends on a case-sensitive file system | Store.UnlinkAsWritten, Store.PartKeepsMixedCaseFile | Store.Unlink, Store.SetThenPartLeavesNoFile |
