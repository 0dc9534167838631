/** Bytes, byte strings and the two primitives every in-place routine of the repository uses:
    Go's copy towards lower addresses, and bytes.Index. */
module Bytes {

  type Byte = b: int | 0 <= b < 256

  type Text = seq<Byte>

  const LF: Byte := 10
  const CR: Byte := 13
  const TAB: Byte := 9
  const SPACE: Byte := 32
  const PERCENT: Byte := 37
  const AMP: Byte := 38
  const STAR: Byte := 42
  const PLUS: Byte := 43
  const DOT: Byte := 46
  const SLASH: Byte := 47
  const ZERO: Byte := 48
  const COLON: Byte := 58
  const EQUALS: Byte := 61

  const CRLF: Text := [CR, LF]

  lemma Append3<T>(a: seq<T>, b: seq<T>, c: seq<T>)
    ensures a + (b + c) == (a + b) + c
  {
  }

  lemma AroundByte<T>(s: seq<T>, n: nat)
    requires n < |s|
    ensures s == s[..n] + [s[n]] + s[n + 1..]
  {
  }

  /** copy(a[to:], a[from:end]) for to <= from. */
  method CopyDown(a: array<Byte>, to: nat, from: nat, end: nat)
    requires to <= from <= end <= a.Length
    modifies a
    ensures a[to..to + (end - from)] == old(a[from..end])
    ensures a[..to] == old(a[..to])
    ensures a[to + (end - from)..] == old(a[to + (end - from)..])
  {
    var shift := from - to;
    for k := to to to + (end - from)
      invariant forall j | to <= j < k :: a[j] == old(a[j + shift])
      invariant forall j | 0 <= j < a.Length && !(to <= j < k) :: a[j] == old(a[j])
    {
      a[k] := a[k + shift];
    }
  }

  predicate OccursAt(s: Text, pat: Text, i: nat) {
    i + |pat| <= |s| && s[i..i + |pat|] == pat
  }

  /** bytes.Index: the first occurrence of pat, or -1. */
  method Index(s: Text, pat: Text) returns (n: int)
    ensures n >= 0 ==> OccursAt(s, pat, n) && forall i | 0 <= i < n :: !OccursAt(s, pat, i)
    ensures n < 0 ==> n == -1 && forall i: nat :: !OccursAt(s, pat, i)
  {
    n := 0;
    while n + |pat| <= |s|
      invariant n >= 0
      invariant forall i | 0 <= i < n :: !OccursAt(s, pat, i)
    {
      if s[n..n + |pat|] == pat {
        return;
      }
      n := n + 1;
    }
    n := -1;
  }

  /** bytes.IndexByte. */
  method IndexByte(s: Text, c: Byte) returns (n: int)
    ensures n >= 0 ==> n < |s| && s[n] == c && c !in s[..n]
    ensures n < 0 ==> n == -1 && c !in s
  {
    n := 0;
    while n < |s|
      invariant 0 <= n <= |s|
      invariant c !in s[..n]
    {
      if s[n] == c {
        return;
      }
      n := n + 1;
    }
    n := -1;
  }

  /** bytes.LastIndexByte. */
  method LastIndexByte(s: Text, c: Byte) returns (n: int)
    ensures n >= 0 ==> n < |s| && s[n] == c && c !in s[n + 1..]
    ensures n < 0 ==> n == -1 && c !in s
  {
    n := |s| - 1;
    while n >= 0
      invariant -1 <= n < |s|
      invariant c !in s[n + 1..]
    {
      if s[n] == c {
        return;
      }
      n := n - 1;
    }
  }
}
