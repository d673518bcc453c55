/**
  The two string primitives the session helper relies on: an ordinal
  `StartsWith` for recognising its own keys, and the
  `Substring(LastIndexOf('#') + 1)` idiom that recovers a timestamp from a
  state key.
 */
module Text {

  /** `s` begins with `p` (ordinal comparison). */
  predicate StartsWith(s: string, p: string) {
    |p| <= |s| && s[..|p|] == p
  }

  /** A concatenation starts with its left operand. */
  lemma StartsWithAppend(p: string, t: string)
    ensures StartsWith(p + t, p)
  {
    assert (p + t)[..|p|] == p;
  }

  /** Beginning with `p`, which begins with `q`, is beginning with `q`. */
  lemma PrefixOfPrefix(s: string, p: string, q: string)
    requires StartsWith(s, p) && StartsWith(p, q)
    ensures StartsWith(s, q)
  {
    assert s[..|q|] == s[..|p|][..|q|];
  }

  /** A string that disagrees with `q` at some position within both does not start with `q`. */
  lemma DisagreeAt(s: string, q: string, i: nat)
    requires i < |s| && i < |q| && s[i] != q[i]
    ensures !StartsWith(s, q)
  {
    if |q| <= |s| {
      assert s[..|q|][i] != q[i];
    }
  }

  /**
    The longest suffix of `s` that does not contain `c`: everything after the
    last `c`, or all of `s` when there is none. This is what
    `s.Substring(s.LastIndexOf(c) + 1)` yields.
   */
  function AfterLast(s: string, c: char): (r: string)
    ensures |r| <= |s| && r == s[|s| - |r|..]
    ensures c !in r
    ensures |r| < |s| ==> s[|s| - |r| - 1] == c
    decreases |s|
  {
    if |s| == 0 then s
    else if s[|s| - 1] == c then ""
    else AfterLast(s[..|s| - 1], c) + [s[|s| - 1]]
  }

  /**
    When `p` ends in `c` and `t` is free of `c`, the text after the last `c`
    of `p + t` is exactly `t`: the timestamp is recovered from a key.
   */
  lemma {:induction false} AfterLastOfSeparated(p: string, t: string, c: char)
    requires |p| > 0 && p[|p| - 1] == c
    requires c !in t
    ensures AfterLast(p + t, c) == t
  {
    var s := p + t;
    assert s[|s| - |t|..] == t;
  }

  /** A string that is free of `c` is its own text after the last `c`. */
  lemma {:induction false} AfterLastOfFree(s: string, c: char)
    requires c !in s
    ensures AfterLast(s, c) == s
  {
  }
}
