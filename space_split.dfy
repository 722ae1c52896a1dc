/**
 * Python's `str.split(' ')` and `' '.join(...)`: splitting on every single
 * space character, so that a run of spaces gives empty tokens and the empty
 * string splits to `[""]`.
 */
module SpaceSplit {

  /** A token that a split on ' ' can return: it holds no space. */
  predicate NoSpace(t: string) {
    ' ' !in t
  }

  predicate AllNoSpace(ts: seq<string>) {
    forall i :: 0 <= i < |ts| ==> NoSpace(ts[i])
  }

  /** `s.split(' ')`. */
  function SplitOnSpace(s: string): (r: seq<string>)
    ensures |r| >= 1
    ensures AllNoSpace(r)
    decreases |s|
  {
    if |s| == 0 then [""]
    else
      var rest := SplitOnSpace(s[1..]);
      if s[0] == ' ' then [""] + rest
      else [[s[0]] + rest[0]] + rest[1..]
  }

  /** `' '.join(ts)`. */
  function JoinOnSpace(ts: seq<string>): string
    decreases |ts|
  {
    if |ts| == 0 then ""
    else if |ts| == 1 then ts[0]
    else ts[0] + " " + JoinOnSpace(ts[1..])
  }

  /** Each token preceded by one space: `''.join(' ' + t for t in ts)`. */
  function SpacePrefixed(ts: seq<string>): string
    decreases |ts|
  {
    if |ts| == 0 then "" else " " + ts[0] + SpacePrefixed(ts[1..])
  }

  /** Joining a non-empty list is its head followed by the space-prefixed rest. */
  lemma {:induction false} JoinHeadTail(ts: seq<string>)
    requires |ts| >= 1
    ensures JoinOnSpace(ts) == ts[0] + SpacePrefixed(ts[1..])
    decreases |ts|
  {
    if |ts| > 1 {
      JoinHeadTail(ts[1..]);
      assert ts[1..][1..] == ts[2..];
    }
  }

  /** Joining the pieces of a split rebuilds the string. */
  lemma {:induction false} JoinSplit(s: string)
    ensures JoinOnSpace(SplitOnSpace(s)) == s
    decreases |s|
  {
    if |s| > 0 {
      var rest := SplitOnSpace(s[1..]);
      JoinSplit(s[1..]);
      if s[0] == ' ' {
        assert ([""] + rest)[1..] == rest;
      } else {
        var r := [[s[0]] + rest[0]] + rest[1..];
        if |rest| == 1 {
          assert r == [[s[0]] + s[1..]];
        } else {
          assert r[1..] == rest[1..];
          assert JoinOnSpace(rest) == rest[0] + " " + JoinOnSpace(rest[1..]);
          assert JoinOnSpace(r) == ([s[0]] + rest[0]) + " " + JoinOnSpace(rest[1..]);
        }
        assert s == [s[0]] + s[1..];
      }
    }
  }

  /** A string without a space splits to itself alone. */
  lemma {:induction false} SplitNoSpace(t: string)
    requires NoSpace(t)
    ensures SplitOnSpace(t) == [t]
    decreases |t|
  {
    if |t| > 0 {
      SplitNoSpace(t[1..]);
      assert t == [t[0]] + t[1..];
    }
  }

  /** A word followed by a space splits off as the first token. */
  lemma {:induction false} SplitWordSpace(t: string, rest: string)
    requires NoSpace(t)
    ensures SplitOnSpace(t + " " + rest) == [t] + SplitOnSpace(rest)
    decreases |t|
  {
    var s := t + " " + rest;
    if |t| == 0 {
      assert s == [' '] + rest;
      assert s[1..] == rest;
    } else {
      SplitWordSpace(t[1..], rest);
      assert s[1..] == t[1..] + " " + rest;
      assert t == [t[0]] + t[1..];
    }
  }

  /** Splitting a join of space-free tokens gives the tokens back. */
  lemma {:induction false} SplitJoin(ts: seq<string>)
    requires |ts| >= 1 && AllNoSpace(ts)
    ensures SplitOnSpace(JoinOnSpace(ts)) == ts
    decreases |ts|
  {
    if |ts| == 1 {
      SplitNoSpace(ts[0]);
    } else {
      SplitJoin(ts[1..]);
      SplitWordSpace(ts[0], JoinOnSpace(ts[1..]));
      assert ts == [ts[0]] + ts[1..];
    }
  }

  /** The number of tokens is one more than the number of spaces. */
  lemma {:induction false} SplitCount(s: string)
    ensures |SplitOnSpace(s)| == multiset(s)[' '] + 1
    decreases |s|
  {
    if |s| > 0 {
      SplitCount(s[1..]);
      assert s == [s[0]] + s[1..];
      assert multiset(s) == multiset([s[0]]) + multiset(s[1..]);
    }
  }

}
