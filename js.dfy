/** The JavaScript built-ins that bot.js relies on, over strings and arrays:
    property slots that may be `undefined` or `null`, `toLowerCase`,
    `indexOf`, `substring`, `split(' ')`, `replace` with a string pattern,
    and `Array.prototype.indexOf` / `splice(i, 1)`. */
module Js {

  /** A property slot of an object used as a dictionary: never assigned (or
      assigned `undefined`), assigned `null`, or holding a value. */
  datatype Value<+T> = Undefined | Null | Defined(get: T)

  /** `m[k]`: a key that was never assigned reads as `undefined`. */
  function Get<T>(m: map<string, Value<T>>, k: string): Value<T>
  {
    if k in m then m[k] else Undefined
  }

  // ---------------------------------------------------------------------
  // toLowerCase

  function LowerChar(c: char): char
  {
    if 'A' <= c <= 'Z' then (c as int + 32) as char else c
  }

  /** `s.toLowerCase()`, on the ASCII letters. */
  function Lower(s: string): (r: string)
    ensures |r| == |s|
    ensures forall i :: 0 <= i < |s| ==> r[i] == LowerChar(s[i])
  {
    if s == [] then [] else [LowerChar(s[0])] + Lower(s[1..])
  }

  /** Lower-casing twice is lower-casing once: a key already lower-cased
      addresses the same slot as the name it came from. */
  lemma LowerIdempotent(s: string)
    ensures Lower(Lower(s)) == Lower(s)
  {
    assert forall i :: 0 <= i < |s| ==> Lower(Lower(s))[i] == Lower(s)[i];
  }

  // ---------------------------------------------------------------------
  // substring and indexOf

  /** `s.substring(start)`: a start past the end gives the empty string. */
  function Substring(s: string, start: nat): (r: string)
    ensures start <= |s| ==> s == s[..start] + r
    ensures start >= |s| ==> r == ""
  {
    if start >= |s| then "" else s[start..]
  }

  /** Lower-casing commutes with dropping a prefix. */
  lemma LowerSubstring(s: string, start: nat)
    ensures Lower(Substring(s, start)) == Substring(Lower(s), start)
  {
    if start < |s| {
      assert forall i :: 0 <= i < |s| - start ==> Lower(s[start..])[i] == Lower(s)[start..][i];
    }
  }

  predicate OccursAt(s: string, pat: string, j: int)
  {
    0 <= j && j + |pat| <= |s| && s[j..j + |pat|] == pat
  }

  /** `pat` occurs at `j` and nowhere before. */
  predicate IsFirstOccurrence(s: string, pat: string, j: int)
  {
    OccursAt(s, pat, j) && forall k :: 0 <= k < j ==> !OccursAt(s, pat, k)
  }

  predicate Occurs(s: string, pat: string)
  {
    exists j :: 0 <= j <= |s| && OccursAt(s, pat, j)
  }

  function IndexOfFrom(s: string, pat: string, from: nat): (i: int)
    ensures i == -1 || from <= i
    ensures i >= 0 ==> OccursAt(s, pat, i) && forall k :: from <= k < i ==> !OccursAt(s, pat, k)
    ensures i < 0 ==> forall k :: from <= k ==> !OccursAt(s, pat, k)
    decreases |s| - from
  {
    if from + |pat| > |s| then -1
    else if s[from..from + |pat|] == pat then from
    else IndexOfFrom(s, pat, from + 1)
  }

  /** `s.indexOf(pat)`: the first position where `pat` occurs, or -1. */
  function IndexOf(s: string, pat: string): (i: int)
    ensures i >= 0 ==> IsFirstOccurrence(s, pat, i)
    ensures i < 0 <==> !Occurs(s, pat)
  {
    IndexOfFrom(s, pat, 0)
  }

  /** `s.indexOf(p) == 0`, the test bot.js uses for "starts with". */
  lemma IndexOfZeroIsPrefix(s: string, p: string)
    ensures IndexOf(s, p) == 0 <==> p <= s
  {
    if p <= s {
      assert OccursAt(s, p, 0);
    }
  }

  /** `s.replace(pat, rep)` with a string pattern: only the first occurrence
      is replaced, and `rep` is inserted literally. */
  function ReplaceFirst(s: string, pat: string, rep: string): (r: string)
    ensures !Occurs(s, pat) ==> r == s
    ensures forall j :: IsFirstOccurrence(s, pat, j) ==> r == s[..j] + rep + s[j + |pat|..]
  {
    var i := IndexOf(s, pat);
    if i < 0 then s else s[..i] + rep + s[i + |pat|..]
  }

  // ---------------------------------------------------------------------
  // split(' ')

  /** `s.split(' ')`: the pieces between single spaces; two spaces in a row
      give an empty piece, and the empty string gives `[""]`. */
  function Split(s: string): (words: seq<string>)
    ensures |words| >= 1
    ensures forall i :: 0 <= i < |words| ==> ' ' !in words[i]
  {
    if s == [] then [""]
    else
      var rest := Split(s[1..]);
      if s[0] == ' ' then [""] + rest else [[s[0]] + rest[0]] + rest[1..]
  }

  /** `words.join(' ')`. */
  function JoinWords(words: seq<string>): string
    requires |words| >= 1
  {
    if |words| == 1 then words[0] else words[0] + " " + JoinWords(words[1..])
  }

  function SpaceCount(s: string): nat
  {
    if s == [] then 0 else (if s[0] == ' ' then 1 else 0) + SpaceCount(s[1..])
  }

  /** The text after the first space, or "" when there is none. */
  function AfterFirstSpace(s: string): string
  {
    if s == [] then "" else if s[0] == ' ' then s[1..] else AfterFirstSpace(s[1..])
  }

  /** Splitting and joining again gives back the text. */
  lemma {:induction false} JoinSplit(s: string)
    ensures JoinWords(Split(s)) == s
  {
    if s != [] {
      JoinSplit(s[1..]);
      var rest := Split(s[1..]);
      if s[0] == ' ' {
        assert ([""] + rest)[1..] == rest;
        assert s == [s[0]] + s[1..];
      } else if |rest| == 1 {
        assert s == [s[0]] + s[1..];
      } else {
        var words := [[s[0]] + rest[0]] + rest[1..];
        assert words[1..] == rest[1..];
        assert s == [s[0]] + s[1..];
      }
    }
  }

  /** A word without spaces in front of more text stays a word of its own. */
  lemma {:induction false} SplitAfterWord(a: string, s: string)
    requires ' ' !in a
    ensures Split(a + " " + s) == [a] + Split(s)
  {
    if a == [] {
      assert ("" + " " + s)[1..] == s;
    } else {
      SplitAfterWord(a[1..], s);
      assert (a + " " + s)[1..] == a[1..] + " " + s;
      assert (a + " " + s)[0] == a[0] && a == [a[0]] + a[1..];
    }
  }

  /** Joining space-free words and splitting again gives back the words. */
  lemma {:induction false} SplitJoin(words: seq<string>)
    requires |words| >= 1
    requires forall i :: 0 <= i < |words| ==> ' ' !in words[i]
    ensures Split(JoinWords(words)) == words
  {
    if |words| == 1 {
      SplitWord(words[0]);
    } else {
      SplitJoin(words[1..]);
      SplitAfterWord(words[0], JoinWords(words[1..]));
    }
  }

  lemma {:induction false} SplitWord(a: string)
    requires ' ' !in a
    ensures Split(a) == [a]
  {
    if a != [] {
      SplitWord(a[1..]);
      assert a == [a[0]] + a[1..];
    }
  }

  /** There is one more word than there are spaces. */
  lemma {:induction false} SplitCount(s: string)
    ensures |Split(s)| == SpaceCount(s) + 1
  {
    if s != [] {
      SplitCount(s[1..]);
    }
  }

  /** The first word ends where the text after the first space begins. */
  lemma {:induction false} SplitFirstWord(s: string)
    ensures Substring(s, |Split(s)[0]| + 1) == AfterFirstSpace(s)
    ensures SpaceCount(s) == 0 ==> |Split(s)[0]| == |s|
  {
    if s != [] {
      SplitFirstWord(s[1..]);
      if s[0] != ' ' {
        assert Substring(s, |Split(s)[0]| + 1) == Substring(s[1..], |Split(s[1..])[0]| + 1);
      }
    }
  }

  /** With exactly one space the second word is the text after it. */
  lemma {:induction false} SplitSecondWord(s: string)
    requires SpaceCount(s) == 1
    ensures |Split(s)| == 2 && Split(s)[1] == AfterFirstSpace(s)
  {
    SplitCount(s);
    if s[0] == ' ' {
      SplitNoSpace(s[1..]);
    } else {
      SplitSecondWord(s[1..]);
    }
  }

  lemma {:induction false} SplitNoSpace(s: string)
    requires SpaceCount(s) == 0
    ensures Split(s) == [s]
  {
    if s != [] {
      SplitNoSpace(s[1..]);
      assert s == [s[0]] + s[1..];
    }
  }

  // ---------------------------------------------------------------------
  // Arrays: indexOf, splice(i, 1), and underscore's contains

  /** `l.indexOf(x)`: the first index holding `x`, or -1. */
  function IndexOfSeq<T(==)>(l: seq<T>, x: T): (i: int)
    ensures -1 <= i < |l|
    ensures i >= 0 ==> l[i] == x && x !in l[..i]
    ensures i < 0 <==> x !in l
  {
    if l == [] then -1
    else if l[0] == x then 0
    else
      var j := IndexOfSeq(l[1..], x);
      assert j >= 0 ==> l[..j + 1] == [l[0]] + l[1..][..j];
      if j < 0 then -1 else j + 1
  }

  /** `l.splice(start, 1)`: a negative start counts from the end, and a
      start past the end removes nothing. */
  function Splice<T>(l: seq<T>, start: int): (r: seq<T>)
    ensures |r| == if l != [] && start < |l| then |l| - 1 else |l|
    ensures 0 <= start < |l| ==> r == l[..start] + l[start + 1..]
    ensures start == -1 && l != [] ==> r == l[..|l| - 1]
    ensures start >= |l| ==> r == l
  {
    var at := if start >= 0 then start else if |l| + start >= 0 then |l| + start else 0;
    if at < |l| then l[..at] + l[at + 1..] else l
  }

  /** `l.splice(l.indexOf(x), 1)`: removes the first `x`; when `x` is absent
      `indexOf` gives -1 and the last element is removed instead. */
  function RemoveFirst<T(==)>(l: seq<T>, x: T): (r: seq<T>)
    ensures x in l ==> multiset(r) == multiset(l) - multiset{x}
    ensures x in l ==> exists i :: 0 <= i < |l| && l[i] == x && x !in l[..i] && r == l[..i] + l[i + 1..]
    ensures x !in l ==> r == if l == [] then [] else l[..|l| - 1]
  {
    var i := IndexOfSeq(l, x);
    assert i >= 0 ==> l == l[..i] + [l[i]] + l[i + 1..];
    Splice(l, i)
  }

  /** `_.contains(list, x)`: `false` when the list is `undefined` or `null`. */
  predicate Contains<T(==)>(list: Value<seq<T>>, x: T)
    ensures !list.Defined? ==> !Contains(list, x)
    ensures list.Defined? ==> (Contains(list, x) <==> exists i :: 0 <= i < |list.get| && list.get[i] == x)
  {
    list.Defined? && x in list.get
  }
}
