/** Character-level helpers shared by the scanners, the decoder and the splicer. */
module Text {
  import opened Wrappers

  /** An ASCII decimal digit, the class `\d` of a JavaScript regex without the `u` flag. */
  predicate IsDigit(c: char) {
    '0' <= c <= '9'
  }

  predicate AllDigits(s: string) {
    forall k :: 0 <= k < |s| ==> IsDigit(s[k])
  }

  /** `w` occurs in `s` starting at index `i`. */
  predicate PrefixAt(s: string, i: nat, w: string) {
    i + |w| <= |s| && s[i..i + |w|] == w
  }

  /** `s` ends with `w`. */
  predicate EndsWith(s: string, w: string) {
    |w| <= |s| && s[|s| - |w|..] == w
  }

  lemma EndsWithAppend(a: string, w: string)
    ensures EndsWith(a + w, w)
  {
    assert (a + w)[|a|..] == w;
  }

  /** Whatever ends with `a + w` ends with `w`. */
  lemma EndsWithSuffix(s: string, a: string, w: string)
    requires EndsWith(s, a + w)
    ensures EndsWith(s, w)
  {
    assert s[|s| - |w|..] == s[|s| - |a + w|..][|a|..];
  }

  /** `w` occurs somewhere in `s`. */
  ghost predicate Occurs(s: string, w: string) {
    exists p: nat :: PrefixAt(s, p, w)
  }

  /** Length of the longest run of digits starting at `i` (how a greedy `\d+` consumes input). */
  function DigitRun(s: string, i: nat): (n: nat)
    requires i <= |s|
    ensures i + n <= |s|
    decreases |s| - i
  {
    if i == |s| || !IsDigit(s[i]) then 0 else 1 + DigitRun(s, i + 1)
  }

  /** The run is all digits and stops at the end or at a non-digit. */
  lemma {:induction false} DigitRunSpec(s: string, i: nat)
    requires i <= |s|
    ensures forall k :: i <= k < i + DigitRun(s, i) ==> IsDigit(s[k])
    ensures i + DigitRun(s, i) == |s| || !IsDigit(s[i + DigitRun(s, i)])
    decreases |s| - i
  {
    if i < |s| && IsDigit(s[i]) {
      DigitRunSpec(s, i + 1);
    }
  }

  /** Length of the longest run of characters other than `stop` starting at `i`
      (how a greedy `[^>]+` consumes input when `stop` is `>`). */
  function RunBefore(s: string, i: nat, stop: char): (n: nat)
    requires i <= |s|
    ensures i + n <= |s|
    decreases |s| - i
  {
    if i == |s| || s[i] == stop then 0 else 1 + RunBefore(s, i + 1, stop)
  }

  /** The run avoids `stop` and ends at the end of `s` or at a `stop`. */
  lemma {:induction false} RunBeforeSpec(s: string, i: nat, stop: char)
    requires i <= |s|
    ensures forall k :: i <= k < i + RunBefore(s, i, stop) ==> s[k] != stop
    ensures i + RunBefore(s, i, stop) == |s| || s[i + RunBefore(s, i, stop)] == stop
    decreases |s| - i
  {
    if i < |s| && s[i] != stop {
      RunBeforeSpec(s, i + 1, stop);
    }
  }

  /** A digit run over an occurrence of the digits `w` at `i` measures `|w|` when the character
      after it (if any) is not a digit. */
  lemma DigitRunOver(s: string, i: nat, w: string)
    requires PrefixAt(s, i, w) && AllDigits(w)
    requires i + |w| == |s| || !IsDigit(s[i + |w|])
    ensures DigitRun(s, i) == |w|
  {
    forall k | i <= k < i + |w|
      ensures IsDigit(s[k])
    {
      assert s[k] == s[i..i + |w|][k - i];
    }
    var n := DigitRun(s, i);
    DigitRunSpec(s, i);
    assert n >= |w| by {
      if n < |w| {
        assert false;
      }
    }
  }

  /** A run over an occurrence at `i` of a `w` free of `stop` measures `|w|` when `stop` follows it. */
  lemma RunBeforeOver(s: string, i: nat, w: string, stop: char)
    requires PrefixAt(s, i, w) && stop !in w
    requires i + |w| < |s| && s[i + |w|] == stop
    ensures RunBefore(s, i, stop) == |w|
  {
    forall k | i <= k < i + |w|
      ensures s[k] != stop
    {
      assert s[k] == s[i..i + |w|][k - i] == w[k - i];
    }
    var n := RunBefore(s, i, stop);
    RunBeforeSpec(s, i, stop);
    assert n >= |w| by {
      if n < |w| {
        assert false;
      }
    }
  }

  /** An occurrence of `t` at `i` holds every slice of `t` at the matching offset. */
  lemma PrefixAtSlice(s: string, i: nat, t: string, a: nat, b: nat)
    requires PrefixAt(s, i, t)
    requires a <= b <= |t|
    ensures PrefixAt(s, i + a, t[a..b])
  {
    var u := s[i..i + |t|];
    assert s[i + a..i + b] == u[a..b] by {
      forall k | 0 <= k < b - a
        ensures s[i + a..i + b][k] == u[a..b][k]
      {
        assert u[a + k] == s[i + a + k];
      }
    }
  }

  lemma AppendAssoc(a: string, b: string, c: string)
    ensures (a + b) + c == a + (b + c)
  {
  }

  /** Where each of three strings sits in their concatenation. */
  lemma ThreeParts(x: string, y: string, z: string)
    ensures (x + y + z)[..|x|] == x
    ensures (x + y + z)[|x|..|x| + |y|] == y
    ensures (x + y + z)[|x| + |y|..] == z
  {
  }

  /** A slice of a prefix is the same slice of the whole. */
  lemma SliceOfPrefix(s: string, q: nat, a: nat, b: nat)
    requires a <= b <= q <= |s|
    ensures s[..q][a..b] == s[a..b]
  {
    forall k | 0 <= k < b - a
      ensures s[..q][a..b][k] == s[a..b][k]
    {
      assert s[..q][a + k] == s[a + k];
    }
  }

  /** An occurrence of `a + w` is an occurrence of `a` followed by one of `w`. */
  lemma PrefixAtSplit(s: string, i: nat, a: string, w: string)
    requires PrefixAt(s, i, a + w)
    ensures PrefixAt(s, i, a) && PrefixAt(s, i + |a|, w)
  {
    var u := s[i..i + |a| + |w|];
    assert u == a + w;
    assert s[i..i + |a|] == u[..|a|];
    assert s[i + |a|..i + |a| + |w|] == u[|a|..];
  }

  /** The first character of an occurrence. */
  lemma PrefixAtHead(s: string, i: nat, w: string)
    requires PrefixAt(s, i, w) && |w| > 0
    ensures s[i] == w[0]
  {
    assert s[i] == s[i..i + |w|][0];
  }

  /** What is left of `s` after a leading `w`, if `s` starts with `w`. */
  function DropPrefix(s: string, w: string): (r: Option<string>)
    ensures r.Some? <==> PrefixAt(s, 0, w)
    ensures r.Some? ==> s == w + r.value
  {
    if |w| <= |s| && s[..|w|] == w then Some(s[|w|..]) else None
  }

  lemma DropPrefixAppend(w: string, rest: string)
    ensures DropPrefix(w + rest, w) == Some(rest)
  {
    assert (w + rest)[..|w|] == w;
    assert (w + rest)[|w|..] == rest;
  }

  /** Index of the first occurrence of `w` in `s` at or after `from`, as JavaScript's `indexOf`. */
  function IndexOf(s: string, w: string, from: nat): (r: Option<nat>)
    requires from <= |s|
    ensures r.Some? ==> from <= r.value && PrefixAt(s, r.value, w)
    ensures r.Some? ==> forall q :: from <= q < r.value ==> !PrefixAt(s, q, w)
    ensures r.None? ==> forall q: nat :: from <= q ==> !PrefixAt(s, q, w)
    decreases |s| - from
  {
    if PrefixAt(s, from, w) then Some(from)
    else if from == |s| then None
    else IndexOf(s, w, from + 1)
  }
}
