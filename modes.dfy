/** Which nicks the `names`, `+mode` and `-mode` handlers add to or remove
    from a channel's operator list. */
module Modes {
  import opened Js

  /** MODES: owner, admin, operator and half-operator channel modes. */
  const OperatorModes: seq<char> := ['q', 'a', 'o', 'h']

  /** PREFIXES: the rank sigils a NAMES reply shows for those modes. */
  const OperatorPrefixes: seq<string> := ["~", "&", "@", "%"]

  /** One entry of a NAMES reply: a nick and the rank sigil shown with it. */
  datatype Member = Member(nick: string, prefix: string)

  /** The mode loops run while `i < mode.length` and break at
      `i >= argumentEx.length`: letters and arguments beyond the shorter of
      the two are ignored. */
  function Bound(mode: string, args: seq<string>): (n: nat)
    ensures n <= |mode| && n <= |args|
    ensures n == |mode| || n == |args|
  {
    if |mode| <= |args| then |mode| else |args|
  }

  // ---------------------------------------------------------------------
  // +mode

  /** The nicks pushed by the first `n` rounds of the `+mode` loop. */
  function Granted(mode: string, args: seq<string>, n: nat): (g: seq<string>)
    requires n <= |mode| && n <= |args|
    ensures |g| <= n
  {
    if n == 0 then []
    else Granted(mode, args, n - 1) + (if mode[n - 1] in OperatorModes then [Lower(args[n - 1])] else [])
  }

  /** A nick is pushed exactly when some operator-rank letter sits at the
      same position as one of its spellings. */
  lemma {:induction false} GrantedMembers(mode: string, args: seq<string>, n: nat, nick: string)
    requires n <= |mode| && n <= |args|
    ensures nick in Granted(mode, args, n)
        <==> exists i :: 0 <= i < n && mode[i] in OperatorModes && Lower(args[i]) == nick
  {
    if n > 0 {
      GrantedMembers(mode, args, n - 1, nick);
      if nick in Granted(mode, args, n - 1) {
        var i :| 0 <= i < n - 1 && mode[i] in OperatorModes && Lower(args[i]) == nick;
        assert 0 <= i < n;
      }
    }
  }

  /** Later rounds only push: the nicks of `n` rounds start those of `m`. */
  lemma {:induction false} GrantedGrows(mode: string, args: seq<string>, n: nat, m: nat)
    requires n <= m <= |mode| && m <= |args|
    ensures Granted(mode, args, n) <= Granted(mode, args, m)
  {
    if n < m {
      GrantedGrows(mode, args, n, m - 1);
    }
  }

  // ---------------------------------------------------------------------
  // -mode

  /** The list left by the first `n` rounds of the `-mode` loop, each of
      which splices out `indexOf` of the demoted nick. */
  function Revoked(list: seq<string>, mode: string, args: seq<string>, n: nat): (r: seq<string>)
    requires n <= |mode| && n <= |args|
    ensures |list| - n <= |r| <= |list|
  {
    if n == 0 then list
    else
      var before := Revoked(list, mode, args, n - 1);
      if mode[n - 1] in OperatorModes then RemoveFirst(before, Lower(args[n - 1])) else before
  }

  /** Demotion never adds a nick. */
  lemma {:induction false} RevokedShrinks(list: seq<string>, mode: string, args: seq<string>, n: nat)
    requires n <= |mode| && n <= |args|
    ensures multiset(Revoked(list, mode, args, n)) <= multiset(list)
  {
    if n > 0 {
      RevokedShrinks(list, mode, args, n - 1);
      var before := Revoked(list, mode, args, n - 1);
      var nick := Lower(args[n - 1]);
      if mode[n - 1] in OperatorModes {
        assert Revoked(list, mode, args, n) == RemoveFirst(before, nick);
        if nick in before {
          assert multiset(RemoveFirst(before, nick)) <= multiset(before);
        } else if before != [] {
          assert before == before[..|before| - 1] + [before[|before| - 1]];
          assert multiset(before[..|before| - 1]) <= multiset(before);
        }
      }
    }
  }

  lemma {:induction false} RevokeGrantedAhead(list: seq<string>, tail: seq<string>, mode: string, args: seq<string>, n: nat)
    requires n <= |mode| && n <= |args|
    ensures multiset(Revoked(list + Granted(mode, args, n) + tail, mode, args, n)) == multiset(list + tail)
    decreases n
  {
    if n == 0 {
      assert list + [] + tail == list + tail;
    } else if mode[n - 1] in OperatorModes {
      var g := Granted(mode, args, n - 1);
      var nick := Lower(args[n - 1]);
      var whole := list + g + ([nick] + tail);
      assert Granted(mode, args, n) == g + [nick];
      assert list + (g + [nick]) + tail == whole;
      RevokeGrantedAhead(list, [nick] + tail, mode, args, n - 1);
      var before := Revoked(whole, mode, args, n - 1);
      assert list + ([nick] + tail) == list + [nick] + tail;
      RemoveFirstCounted(before, list, nick, tail);
    } else {
      var whole := list + Granted(mode, args, n - 1) + tail;
      assert Granted(mode, args, n) == Granted(mode, args, n - 1);
      RevokeGrantedAhead(list, tail, mode, args, n - 1);
      assert Revoked(whole, mode, args, n) == Revoked(whole, mode, args, n - 1);
    }
  }

  /** Removing a nick from a list that holds it takes out one copy. */
  lemma RemoveFirstCounted(before: seq<string>, list: seq<string>, nick: string, tail: seq<string>)
    requires multiset(before) == multiset(list + [nick] + tail)
    ensures multiset(RemoveFirst(before, nick)) == multiset(list + tail)
  {
    assert nick in multiset(before);
    assert multiset(list + [nick] + tail) == multiset(list) + multiset{nick} + multiset(tail);
    assert multiset(list + tail) == multiset(list) + multiset(tail);
  }

  /** A `-mode` with the same letters and arguments as a `+mode` takes the
      operator list back to what it held, up to order. */
  lemma GrantThenRevoke(list: seq<string>, mode: string, args: seq<string>)
    ensures var n := Bound(mode, args);
      multiset(Revoked(list + Granted(mode, args, n), mode, args, n)) == multiset(list)
  {
    RevokeGrantedAhead(list, [], mode, args, Bound(mode, args));
    assert list + Granted(mode, args, Bound(mode, args)) + [] == list + Granted(mode, args, Bound(mode, args));
    assert list + [] == list;
  }

  lemma {:induction false} RevokeFreshGrantedAhead(list: seq<string>, tail: seq<string>, mode: string, args: seq<string>, n: nat)
    requires n <= |mode| && n <= |args|
    requires forall nick :: nick in Granted(mode, args, n) ==> nick !in list
    ensures Revoked(list + Granted(mode, args, n) + tail, mode, args, n) == list + tail
    decreases n
  {
    if n == 0 {
      assert list + [] + tail == list + tail;
    } else {
      var g := Granted(mode, args, n - 1);
      var nick := Lower(args[n - 1]);
      var last: seq<string> := if mode[n - 1] in OperatorModes then [nick] else [];
      var whole := list + g + (last + tail);
      assert list + Granted(mode, args, n) + tail == whole;
      forall x | x in g
        ensures x !in list
      {
        assert x in g + last;
      }
      RevokeFreshGrantedAhead(list, last + tail, mode, args, n - 1);
      if mode[n - 1] in OperatorModes {
        assert nick in g + last;
        assert list + (last + tail) == list + [nick] + tail;
        RemoveFirstBehind(list, nick, tail);
      } else {
        assert list + (last + tail) == list + tail;
      }
    }
  }

  /** The first occurrence of a nick not in `list` is the one right after it. */
  lemma RemoveFirstBehind(list: seq<string>, nick: string, tail: seq<string>)
    requires nick !in list
    ensures RemoveFirst(list + [nick] + tail, nick) == list + tail
  {
    var s := list + [nick] + tail;
    var i := IndexOfSeq(s, nick);
    assert s[..|list|] == list && s[|list|] == nick;
    assert i == |list|;
    assert s[..i] + s[i + 1..] == list + tail;
  }

  /** When none of the promoted nicks was an operator before, demoting them
      again restores the operator list exactly. */
  lemma GrantThenRevokeExact(list: seq<string>, mode: string, args: seq<string>)
    requires forall nick :: nick in Granted(mode, args, Bound(mode, args)) ==> nick !in list
    ensures var n := Bound(mode, args);
      Revoked(list + Granted(mode, args, n), mode, args, n) == list
  {
    RevokeFreshGrantedAhead(list, [], mode, args, Bound(mode, args));
    assert list + Granted(mode, args, Bound(mode, args)) + [] == list + Granted(mode, args, Bound(mode, args));
    assert list + [] == list;
  }

  /** The quirk of `splice(indexOf(nick), 1)`: demoting a nick that is not
      listed removes the last operator instead. */
  lemma RevokeAbsentDropsLast(list: seq<string>, nick: string)
    requires Lower(nick) !in list && list != []
    ensures Revoked(list, "o", [nick], 1) == list[..|list| - 1]
  {
    assert "o"[0] in OperatorModes;
  }

  // ---------------------------------------------------------------------
  // names

  /** The nicks pushed by the `names` handler: those shown with a rank sigil. */
  function NamedOperators(names: seq<Member>): (nicks: seq<string>)
    ensures |nicks| <= |names|
  {
    if names == [] then []
    else
      var last := names[|names| - 1];
      NamedOperators(names[..|names| - 1]) + (if last.prefix in OperatorPrefixes then [Lower(last.nick)] else [])
  }

  /** Exactly the members with an operator-rank sigil are pushed. */
  lemma {:induction false} NamedOperatorsMembers(names: seq<Member>, nick: string)
    ensures nick in NamedOperators(names)
        <==> exists i :: 0 <= i < |names| && names[i].prefix in OperatorPrefixes && Lower(names[i].nick) == nick
  {
    if names != [] {
      var init := names[..|names| - 1];
      NamedOperatorsMembers(init, nick);
      if nick in NamedOperators(init) {
        var i :| 0 <= i < |init| && init[i].prefix in OperatorPrefixes && Lower(init[i].nick) == nick;
        assert names[i] == init[i];
      }
      if exists i :: 0 <= i < |names| && names[i].prefix in OperatorPrefixes && Lower(names[i].nick) == nick {
        var i :| 0 <= i < |names| && names[i].prefix in OperatorPrefixes && Lower(names[i].nick) == nick;
        if i < |init| {
          assert names[i] == init[i];
        }
      }
    }
  }
}
