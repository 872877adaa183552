/** The few JavaScript string operations the core relies on:
    `split` with and without a limit, `slice` with negative indices, a global one-character
    `replace`. Positions count characters (code points), where JavaScript counts UTF-16 code
    units; the two agree on text inside the Basic Multilingual Plane. */
module JsText {

  /** The text before the first occurrence of `c` in `s`; all of `s` when `c` does not occur. */
  function Before(s: string, c: char): (r: string)
    ensures r <= s
    ensures c !in r
    ensures |r| < |s| ==> s[|r|] == c
  {
    if s == [] || s[0] == c then [] else [s[0]] + Before(s[1..], c)
  }

  /** The three facts above pin `Before` down: any prefix that avoids `c` and stops at a `c`
      (or at the end) is it. */
  lemma BeforeUnique(s: string, c: char, p: string)
    requires p <= s && c !in p
    requires |p| == |s| || s[|p|] == c
    ensures Before(s, c) == p
  {
    var r := Before(s, c);
    assert r == s[..|r|] && p == s[..|p|];
  }

  /** The text after the first occurrence of `c` in `s`. */
  function After(s: string, c: char): (r: string)
    requires c in s
    ensures s == Before(s, c) + [c] + r
  {
    var b := Before(s, c);
    assert |b| < |s| by {
      if |b| == |s| {
        assert false;
      }
    }
    assert s == b + [c] + s[|b| + 1..] by {
      assert s == s[..|b|] + [s[|b|]] + s[|b| + 1..];
    }
    s[|b| + 1..]
  }

  /** JavaScript's `s.split(c, 2)`: at most the first two pieces. */
  function SplitTwo(s: string, c: char): (r: seq<string>)
    ensures |r| == if c in s then 2 else 1
  {
    if c in s then [Before(s, c), Before(After(s, c), c)] else [s]
  }

  /** `SplitTwo` on a text built from two pieces gives those pieces back. */
  lemma SplitTwoOf(a: string, c: char, b: string, rest: string)
    requires c !in a && c !in b
    requires rest == [] || rest[0] == c
    ensures SplitTwo(a + [c] + b + rest, c) == [a, b]
  {
    var s := a + [c] + b + rest;
    assert s[|a|] == c;
    assert a <= s;
    BeforeUnique(s, c, a);
    var tail := After(s, c);
    assert tail == b + rest by {
      assert s == a + [c] + (b + rest);
    }
    assert b <= tail;
    BeforeUnique(tail, c, b);
  }

  /** Number of occurrences of `c` in `s`. */
  function Count(s: string, c: char): nat {
    if s == [] then 0 else (if s[0] == c then 1 else 0) + Count(s[1..], c)
  }

  lemma {:induction false} CountAppend(a: string, b: string, c: char)
    ensures Count(a + b, c) == Count(a, c) + Count(b, c)
  {
    if a != [] {
      assert (a + b)[1..] == a[1..] + b;
      CountAppend(a[1..], b, c);
    } else {
      assert a + b == b;
    }
  }

  lemma {:induction false} CountAbsent(s: string, c: char)
    requires c !in s
    ensures Count(s, c) == 0
  {
    if s != [] {
      CountAbsent(s[1..], c);
    }
  }

  /** The pieces joined back with `c` between them. */
  function Join(pieces: seq<string>, c: char): string
    requires |pieces| >= 1
  {
    if |pieces| == 1 then pieces[0] else pieces[0] + [c] + Join(pieces[1..], c)
  }

  /** JavaScript's `s.split(c)`: every piece between occurrences of `c`. */
  function Split(s: string, c: char): (r: seq<string>)
    ensures |r| == Count(s, c) + 1
    ensures forall i :: 0 <= i < |r| ==> c !in r[i]
    ensures Join(r, c) == s
    decreases |s|
  {
    if c in s then
      var b, a := Before(s, c), After(s, c);
      CountAppend(b + [c], a, c);
      CountAppend(b, [c], c);
      CountAbsent(b, c);
      [b] + Split(a, c)
    else
      CountAbsent(s, c);
      [s]
  }

  /** `s.replace(/x/g, y)` for a one-character pattern `x`. */
  function ReplaceChar(s: string, x: char, y: char): (r: string)
    ensures |r| == |s|
    ensures forall i :: 0 <= i < |s| ==> r[i] == if s[i] == x then y else s[i]
  {
    if s == [] then [] else [if s[0] == x then y else s[0]] + ReplaceChar(s[1..], x, y)
  }

  /** How `String.prototype.slice` turns an index argument into a position in a text of
      length `n`: negative indices count from the end, and both are clamped to [0, n]. */
  function SliceIndex(n: nat, k: int): (i: nat)
    ensures i <= n
  {
    if k < 0 then (if n + k < 0 then 0 else n + k) else if k > n then n else k
  }

  /** `s.slice(start, end)`. */
  function Slice(s: string, start: int, end: int): string {
    var from, to := SliceIndex(|s|, start), SliceIndex(|s|, end);
    if from < to then s[from..to] else []
  }
}
