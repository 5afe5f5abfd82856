/** The hourly sweep: every channel whose stored pattern contains the
    placeholder is synced; a channel whose pattern is `undefined` or `null`
    makes `value.indexOf` throw, which ends the sweep there. */
module Scheduler {
  import opened Js
  import opened Irc
  import opened Topic

  /** The actions of a sweep, and whether it ran to the end. */
  datatype Run = Run(actions: seq<Action>, ok: bool)

  /** Every key of the map is already lower-cased. */
  predicate LowerKeys<T>(m: map<string, Value<T>>)
  {
    forall k :: k in m ==> Lower(k) == k
  }

  /** What the sweep may rely on: `order` lists keys of `patterns`, and a
      joke draw is at hand for each of them. */
  predicate SweepInputs(jokes: seq<string>, patterns: map<string, Value<string>>,
                        order: seq<string>, picks: seq<nat>)
  {
    && |picks| == |order|
    && (forall i :: 0 <= i < |order| ==> order[i] in patterns)
    && (forall i :: 0 <= i < |picks| ==> ValidPick(jokes, picks[i]))
  }

  /** The first `n` rounds of `_.each(patterns, ...)` visiting the keys in
      the order `order`. */
  function Swept(nickname: string, jokes: seq<string>, patterns: map<string, Value<string>>,
                 ops: map<string, Value<seq<string>>>, order: seq<string>, picks: seq<nat>, n: nat): (run: Run)
    requires SweepInputs(jokes, patterns, order, picks) && n <= |order|
    ensures |run.actions| <= n
  {
    if n == 0 then Run([], true)
    else
      var before := Swept(nickname, jokes, patterns, ops, order, picks, n - 1);
      var channel := order[n - 1];
      if !before.ok then before
      else match patterns[channel]
        case Defined(pattern) =>
          if IsDynamic(pattern)
          then Run(before.actions + SyncActions(channel, Sync(nickname, jokes, patterns, ops, channel, picks[n - 1])), true)
          else before
        case _ => Run(before.actions, false)
  }

  /** One more round after a run that has not thrown: it throws on an
      `undefined` or `null` pattern, syncs a dynamic one, and skips the rest. */
  lemma SweptRound(nickname: string, jokes: seq<string>, patterns: map<string, Value<string>>,
                   ops: map<string, Value<seq<string>>>, order: seq<string>, picks: seq<nat>, i: nat)
    requires SweepInputs(jokes, patterns, order, picks) && i < |order|
    requires Swept(nickname, jokes, patterns, ops, order, picks, i).ok
    ensures var before, value := Swept(nickname, jokes, patterns, ops, order, picks, i), patterns[order[i]];
      Swept(nickname, jokes, patterns, ops, order, picks, i + 1)
        == if !value.Defined? then Run(before.actions, false)
           else if IsDynamic(value.get)
           then Run(before.actions + SyncActions(order[i], Sync(nickname, jokes, patterns, ops, order[i], picks[i])), true)
           else before
  {
  }

  /** Once a round has thrown, later rounds change nothing. */
  lemma {:induction false} SweptStaysStopped(nickname: string, jokes: seq<string>, patterns: map<string, Value<string>>,
                                             ops: map<string, Value<seq<string>>>, order: seq<string>, picks: seq<nat>,
                                             n: nat, m: nat)
    requires SweepInputs(jokes, patterns, order, picks) && n <= m <= |order|
    requires !Swept(nickname, jokes, patterns, ops, order, picks, n).ok
    ensures Swept(nickname, jokes, patterns, ops, order, picks, m) == Swept(nickname, jokes, patterns, ops, order, picks, n)
  {
    if n < m {
      SweptStaysStopped(nickname, jokes, patterns, ops, order, picks, n, m - 1);
    }
  }

  /** The sweep runs to the end exactly when no visited pattern is
      `undefined` or `null`. */
  lemma {:induction false} SweptCompletes(nickname: string, jokes: seq<string>, patterns: map<string, Value<string>>,
                                          ops: map<string, Value<seq<string>>>, order: seq<string>, picks: seq<nat>, n: nat)
    requires SweepInputs(jokes, patterns, order, picks) && n <= |order|
    ensures Swept(nickname, jokes, patterns, ops, order, picks, n).ok
        <==> forall i :: 0 <= i < n ==> patterns[order[i]].Defined?
  {
    if n > 0 {
      SweptCompletes(nickname, jokes, patterns, ops, order, picks, n - 1);
    }
  }

  /** Round `i` refreshes its channel: the pattern there holds the
      placeholder, the bot is an operator there, and `action` is the TOPIC
      with that pattern rendered. */
  predicate RefreshedAt(nickname: string, jokes: seq<string>, patterns: map<string, Value<string>>,
                        ops: map<string, Value<seq<string>>>, order: seq<string>, picks: seq<nat>,
                        i: int, action: Action)
    requires SweepInputs(jokes, patterns, order, picks)
  {
    && 0 <= i < |order|
    && patterns[order[i]].Defined?
    && IsDynamic(patterns[order[i]].get)
    && IsOperator(ops, order[i], nickname)
    && action == SetTopic(order[i], Render(patterns[order[i]].get, Joke(jokes, picks[i])))
  }

  /** Every action of a sweep is the refresh of a dynamic channel where the
      bot is an operator: static topics are never touched. */
  lemma {:induction false} SweptOnlyRefreshes(nickname: string, jokes: seq<string>, patterns: map<string, Value<string>>,
                                              ops: map<string, Value<seq<string>>>, order: seq<string>, picks: seq<nat>, n: nat)
    requires SweepInputs(jokes, patterns, order, picks) && n <= |order|
    requires LowerKeys(patterns)
    ensures forall action :: action in Swept(nickname, jokes, patterns, ops, order, picks, n).actions
              ==> exists i :: 0 <= i < n && RefreshedAt(nickname, jokes, patterns, ops, order, picks, i, action)
  {
    if n > 0 {
      SweptOnlyRefreshes(nickname, jokes, patterns, ops, order, picks, n - 1);
      var before := Swept(nickname, jokes, patterns, ops, order, picks, n - 1);
      var channel := order[n - 1];
      if before.ok && patterns[channel].Defined? && IsDynamic(patterns[channel].get) {
        assert Lower(channel) == channel;
        var r := Sync(nickname, jokes, patterns, ops, channel, picks[n - 1]);
        if r.Sent? {
          assert RefreshedAt(nickname, jokes, patterns, ops, order, picks, n - 1, SetTopic(channel, r.topic));
        }
      }
    }
  }

  /** A sweep that runs to the end refreshes every dynamic channel where the
      bot is an operator. */
  lemma {:induction false} SweptCoversDynamic(nickname: string, jokes: seq<string>, patterns: map<string, Value<string>>,
                                              ops: map<string, Value<seq<string>>>, order: seq<string>, picks: seq<nat>, n: nat)
    requires SweepInputs(jokes, patterns, order, picks) && n <= |order|
    requires LowerKeys(patterns)
    requires Swept(nickname, jokes, patterns, ops, order, picks, n).ok
    ensures forall i :: 0 <= i < n && patterns[order[i]].Defined? && IsDynamic(patterns[order[i]].get)
                        && IsOperator(ops, order[i], nickname)
              ==> SetTopic(order[i], Render(patterns[order[i]].get, Joke(jokes, picks[i])))
                  in Swept(nickname, jokes, patterns, ops, order, picks, n).actions
  {
    if n > 0 {
      var before := Swept(nickname, jokes, patterns, ops, order, picks, n - 1);
      assert before.ok;
      SweptCoversDynamic(nickname, jokes, patterns, ops, order, picks, n - 1);
      var channel := order[n - 1];
      assert Lower(channel) == channel;
      assert before.actions <= Swept(nickname, jokes, patterns, ops, order, picks, n).actions;
    }
  }
}
