/** normalizePath (uri.go, the Unix part): the in-place loops compute the segment stack. */
module NormalizePaths {
  import opened Bytes
  import opened PercentCodec
  import opened PathSegments

  /** The decoded path, with the slash that addLeadingSlash puts in front of a relative one. */
  function Rooted(src: Text): (d: Text)
    ensures d != [] && d[0] == SLASH
  {
    if src == [] || src[0] != SLASH then [SLASH] + Decode(src, false) else Decode(src, false)
  }

  function Normalize(src: Text): Text {
    RemoveDots(Rooted(src))
  }

  // ---------------------------------------------------------------------------
  // The four cuts
  // ---------------------------------------------------------------------------

  lemma FramedEnds(s: Text, seg: Text, n: nat)
    requires OccursAt(s, Framed(seg), n)
    ensures n + |seg| + 2 <= |s| && s[n] == SLASH && s[n + |seg| + 1] == SLASH
    ensures s[n + |seg| + 1..] == [SLASH] + s[n + |seg| + 2..]
  {
    var w := s[n..n + |seg| + 2];
    assert w == Framed(seg) && w[0] == s[n] && w[|seg| + 1] == s[n + |seg| + 1];
  }

  lemma CutEmptyOrDot(cur: Text, seg: Text, n: nat)
    requires seg == [] || seg == [DOT]
    requires OccursAt(cur, Framed(seg), n)
    ensures var next := cur[..n] + cur[n + |seg| + 1..];
            && RemoveDots(next) == RemoveDots(cur)
            && (forall x | NoInner(cur, x) :: NoInner(next, x))
  {
    var p, q := cur[..n], cur[n + |seg| + 2..];
    SplitAtFramed(cur, seg, n);
    PushOne(PushAll([], Split(p)), seg);
    CutInner(cur, p, [seg], q);
    FramedEnds(cur, seg, n);
    assert p + cur[n + |seg| + 1..] == p + [SLASH] + q;
  }

  lemma SplitLast(p: Text, nn: nat)
    requires nn < |p| && p[nn] == SLASH && SLASH !in p[nn + 1..]
    ensures Split(p) == Split(p[..nn]) + [p[nn + 1..]]
  {
    hide Split;
    AroundByte(p, nn);
    SplitCat(p[..nn], p[nn + 1..]);
    SplitPlain(p[nn + 1..]);
  }

  lemma FramedBetween(s: Text, i: nat, j: nat)
    requires i < j < |s| && s[i] == SLASH && s[j] == SLASH
    ensures OccursAt(s, Framed(s[i + 1..j]), i)
  {
    assert s[i..j + 1] == Framed(s[i + 1..j]);
  }

  /** The first "/../" takes the segment before it along. */
  lemma CutDotDot(cur: Text, n: nat, nn: nat)
    requires OccursAt(cur, Framed(DOTDOT), n) && forall i | 0 <= i < n :: !OccursAt(cur, Framed(DOTDOT), i)
    requires nn < n && cur[nn] == SLASH && SLASH !in cur[nn + 1..n]
    requires NoInner(cur, []) && NoInner(cur, [DOT])
    ensures var next := cur[..nn] + cur[n + 3..];
            && RemoveDots(next) == RemoveDots(cur)
            && (forall x | NoInner(cur, x) :: NoInner(next, x))
  {
    hide Split, RemoveDots, PushAll;
    var p, q, p0, x := cur[..n], cur[n + 4..], cur[..nn], cur[nn + 1..n];
    SplitAtFramed(cur, DOTDOT, n);
    FramedEnds(cur, DOTDOT, n);
    assert p[nn + 1..] == x && p[..nn] == p0;
    SplitLast(p, nn);
    assert Split(cur) == Split(p0) + [x, DOTDOT] + Split(q);
    assert Split(cur)[|Split(p0)|] == x;
    FramedBetween(cur, nn, n);
    PushPop(PushAll([], Split(p0)), x);
    CutInner(cur, p0, [x, DOTDOT], q);
    assert p0 + cur[n + 3..] == p0 + [SLASH] + q;
  }

  /** A "/../" at the root goes alone. */
  lemma CutRootDotDot(cur: Text)
    requires OccursAt(cur, Framed(DOTDOT), 0)
    ensures var next := cur[3..];
            && RemoveDots(next) == RemoveDots(cur)
            && (forall x | NoInner(cur, x) :: NoInner(next, x))
  {
    hide Split, RemoveDots;
    var q := cur[4..];
    SplitAtFramed(cur, DOTDOT, 0);
    assert cur[..0] == [];
    SplitPlain([]);
    assert PushAll([], [[]]) == [] by { PushOne([], []); }
    assert PushAll([], [DOTDOT]) == [] by { PushOne([], DOTDOT); }
    CutInner(cur, [], [DOTDOT], q);
    FramedEnds(cur, DOTDOT, 0);
    assert cur[3..] == [] + [SLASH] + q;
  }

  lemma TailParts(cur: Text, n: nat, nn: nat)
    requires n + 3 == |cur| && cur[n..] == SLASH_DOTDOT && nn < n && cur[nn] == SLASH
    ensures cur == cur[..nn] + [SLASH] + (cur[nn + 1..n] + [SLASH] + DOTDOT)
    ensures cur[..nn + 1] == cur[..nn] + [SLASH] + []
  {
    assert cur == cur[..nn + 1] + (cur[nn + 1..n] + cur[n..]);
    assert SLASH_DOTDOT == [SLASH] + DOTDOT;
    Append3(cur[nn + 1..n], [SLASH], DOTDOT);
  }

  lemma {:induction false} TailSegments(cur: Text, n: nat, nn: nat)
    requires n + 3 == |cur| && cur[n..] == SLASH_DOTDOT
    requires nn < n && cur[nn] == SLASH && SLASH !in cur[nn + 1..n]
    ensures Split(cur) == Split(cur[..nn]) + [cur[nn + 1..n], DOTDOT]
    ensures Split(cur[..nn + 1]) == Split(cur[..nn]) + [[]]
  {
    var p0, x := cur[..nn], cur[nn + 1..n];
    SplitPlain([]);
    SplitPlain(DOTDOT);
    SplitPlain(x);
    hide Split;
    TailParts(cur, n, nn);
    SplitCat(p0, x + [SLASH] + DOTDOT);
    SplitCat(x, DOTDOT);
    SplitCat(p0, []);
  }

  lemma TailMeaning(cur: Text, cut: Text, base: seq<Text>, x: Text)
    requires Split(cur) == base + [x, DOTDOT] && Split(cut) == base + [[]] && Ordinary(x)
    ensures RemoveDots(cut) == RemoveDots(cur)
  {
    hide Split, PushAll;
    var segs := Split(cur);
    assert segs[..|segs| - 1] == base + [x] && Split(cut)[..|Split(cut)| - 1] == base;
    PushAllCat([], base, [x]);
    var stack := PushAll([], base);
    PushOne(stack, x);
    assert (stack + [x])[..|stack|] == stack;
  }

  lemma TailInner(cur: Text, cut: Text, base: seq<Text>, x: Text)
    requires Split(cur) == base + [x, DOTDOT] && Split(cut) == base + [[]]
    ensures forall seg | NoInner(cur, seg) :: NoInner(cut, seg)
    ensures base != [] ==> forall seg | NoInner(cur, seg) :: x != seg
  {
    hide Split;
    assert forall i | 0 < i < |Split(cut)| - 1 :: Split(cut)[i] == Split(cur)[i];
    assert Split(cur)[|base|] == x;
  }

  /** A trailing "/.." takes the segment before it along and leaves a slash. */
  lemma CutTail(cur: Text, n: nat, nn: nat)
    requires n + 3 == |cur| && cur[n..] == SLASH_DOTDOT
    requires nn < n && cur[nn] == SLASH && SLASH !in cur[nn + 1..n]
    requires NoInner(cur, []) && NoInner(cur, [DOT]) && NoInner(cur, DOTDOT)
    ensures RemoveDots(cur[..nn + 1]) == RemoveDots(cur)
    ensures forall x | NoInner(cur, x) :: NoInner(cur[..nn + 1], x)
    ensures !EndsWith(cur[..nn + 1], SLASH_DOTDOT)
  {
    TailSegments(cur, n, nn);
    var cut, base, x := cur[..nn + 1], Split(cur[..nn]), cur[nn + 1..n];
    hide Split, RemoveDots, NoInner;
    TailInner(cur, cut, base, x);
    TailMeaning(cur, cut, base, x);
    assert cut[nn] == SLASH;
  }

  // ---------------------------------------------------------------------------
  // The loops
  // ---------------------------------------------------------------------------

  /** copy(b[to:], b[from:]) and b = b[:len(b)-from+to], on the buffer a[:end]. */
  method Cut(a: array<Byte>, to: nat, from: nat, end: nat) returns (end': nat)
    requires to <= from <= end <= a.Length
    modifies a
    ensures end' == end - (from - to)
    ensures a[..end'] == old(a[..to]) + old(a[from..end])
  {
    CopyDown(a, to, from, end);
    end' := end - (from - to);
    assert a[..end'] == a[..to] + a[to..end'];
  }

  lemma OccursInTail(s: Text, pat: Text, off: nat, i: nat)
    requires off <= i && off <= |s|
    ensures OccursAt(s, pat, i) <==> OccursAt(s[off..], pat, i - off)
  {
    if i + |pat| <= |s| {
      assert s[i..i + |pat|] == s[off..][i - off..i - off + |pat|];
    }
  }

  /** What one removal does, on the value. */
  lemma SlashFound(cur: Text, off: nat, n: nat)
    requires off < |cur| && cur[0] == SLASH && OccursAt(cur[off..], Framed([]), n)
    requires forall i | 0 <= i < off :: !OccursAt(cur, Framed([]), i)
    requires forall i | 0 <= i < n :: !OccursAt(cur[off..], Framed([]), i)
    ensures var at := off + n;
            && at + 1 < |cur|
            && var next := cur[..at] + cur[at + 1..];
            && at < |next| && next[0] == SLASH && RemoveDots(next) == RemoveDots(cur)
            && (forall i | 0 <= i < at :: !OccursAt(next, Framed([]), i))
  {
    hide RemoveDots, NoInner, OccursAt;
    var at := off + n;
    OccursInTail(cur, Framed([]), off, at);
    CutEmptyOrDot(cur, [], at);
    FramedEnds(cur, [], at);
    NoneBefore(cur, off, at);
  }

  /** One removal; nothing is found when at < 0, and otherwise the search goes on from at. */
  method DropSlash(dst: array<Byte>, off: nat, size: nat) returns (at: int, end: nat)
    requires off < size <= dst.Length && dst[0] == SLASH
    requires forall i | 0 <= i < off :: !OccursAt(dst[..size], Framed([]), i)
    modifies dst
    ensures at < 0 ==> end == size && dst[..] == old(dst[..]) && NoInner(dst[..end], [])
    ensures at >= 0 ==>
              && at < end < size && dst[0] == SLASH
              && RemoveDots(dst[..end]) == RemoveDots(old(dst[..size]))
              && (forall i | 0 <= i < at :: !OccursAt(dst[..end], Framed([]), i))
  {
    hide RemoveDots, NoInner, OccursAt;
    ghost var cur := dst[..size];
    end := size;
    at := Index(dst[off..size], Framed([]));
    assert dst[off..size] == cur[off..];
    if at < 0 {
      NoneAtAll(cur, off);
      return;
    }
    SlashFound(cur, off, at);
    at := off + at;
    ghost var next := cur[..at] + cur[at + 1..];
    assert dst[..at] == cur[..at] && dst[at + 1..size] == cur[at + 1..];
    end := Cut(dst, at, at + 1, size);
    assert dst[..end] == next && dst[0] == next[0];
  }

  /** Duplicate slashes: the search goes on from the last removal. */
  method DropDuplicateSlashes(dst: array<Byte>) returns (end: nat)
    requires dst.Length > 0 && dst[0] == SLASH
    modifies dst
    ensures 0 < end <= dst.Length && dst[0] == SLASH
    ensures RemoveDots(dst[..end]) == RemoveDots(old(dst[..]))
    ensures NoInner(dst[..end], [])
  {
    end := dst.Length;
    assert dst[..end] == dst[..];
    var off: nat := 0;
    while true
      invariant off < end <= dst.Length && dst[0] == SLASH
      invariant RemoveDots(dst[..end]) == RemoveDots(old(dst[..]))
      invariant forall i | 0 <= i < off :: !OccursAt(dst[..end], Framed([]), i)
      decreases end
    {
      hide RemoveDots, NoInner, OccursAt;
      var n;
      n, end := DropSlash(dst, off, end);
      if n < 0 {
        return;
      }
      off := n;
    }
  }

  lemma NoneAtAll(cur: Text, off: nat)
    requires off <= |cur|
    requires forall i | 0 <= i < off :: !OccursAt(cur, Framed([]), i)
    requires forall i: nat :: !OccursAt(cur[off..], Framed([]), i)
    ensures NoInner(cur, [])
  {
    forall i: nat ensures !OccursAt(cur, Framed([]), i) {
      if i >= off {
        OccursInTail(cur, Framed([]), off, i);
      }
    }
    NoInnerIff(cur, []);
  }

  lemma NoneBefore(cur: Text, off: nat, n: nat)
    requires off <= n && OccursAt(cur, Framed([]), n)
    requires forall i | 0 <= i < off :: !OccursAt(cur, Framed([]), i)
    requires forall i | 0 <= i < n - off :: !OccursAt(cur[off..], Framed([]), i)
    ensures var next := cur[..n] + cur[n + 1..];
            && (forall i | 0 <= i < n :: !OccursAt(next, Framed([]), i))
            && |next| > n && next[0] == cur[0]
  {
    var next := cur[..n] + cur[n + 1..];
    FramedEnds(cur, [], n);
    forall i | 0 <= i < n ensures !OccursAt(next, Framed([]), i) {
      SlashPair(cur, next, i);
      if i >= off {
        OccursInTail(cur, Framed([]), off, i);
      }
    }
  }

  lemma SlashPair(s: Text, s': Text, i: nat)
    requires i + 1 < |s| && i + 1 < |s'| && s[i] == s'[i] && s[i + 1] == s'[i + 1]
    ensures OccursAt(s, Framed([]), i) <==> OccursAt(s', Framed([]), i)
  {
    assert s[i..i + 2] == s'[i..i + 2];
  }

  /** "/./" parts. */
  method DropDots(dst: array<Byte>, size: nat) returns (end: nat)
    requires 0 < size <= dst.Length && dst[0] == SLASH && NoInner(dst[..size], [])
    modifies dst
    ensures 0 < end <= size && dst[0] == SLASH
    ensures RemoveDots(dst[..end]) == RemoveDots(old(dst[..size]))
    ensures NoInner(dst[..end], []) && NoInner(dst[..end], [DOT])
  {
    end := size;
    while true
      invariant 0 < end <= size && dst[0] == SLASH
      invariant RemoveDots(dst[..end]) == RemoveDots(old(dst[..size]))
      invariant NoInner(dst[..end], [])
      decreases end
    {
      hide RemoveDots, NoInner;
      ghost var cur := dst[..end];
      var n := Index(dst[..end], Framed([DOT]));
      NoInnerIff(cur, [DOT]);
      if n < 0 {
        return;
      }
      CutEmptyOrDot(cur, [DOT], n);
      FramedEnds(cur, [DOT], n);
      var nn := n + 2;
      assert dst[..n] == cur[..n] && dst[nn..end] == cur[nn..];
      end := Cut(dst, n, nn, end);
      assert dst[0] == dst[..end][0];
    }
  }

  lemma RootSlashIn(s: Text, n: nat)
    requires s != [] && s[0] == SLASH && n <= |s|
    ensures n == 0 || SLASH in s[..n]
  {
    if n > 0 {
      assert s[..n][0] == SLASH;
    }
  }

  /** What one removal does, on the value: nn is the last slash before n, or -1. */
  lemma DotDotFound(cur: Text, n: nat, nn: int)
    requires cur != [] && cur[0] == SLASH && OccursAt(cur, Framed(DOTDOT), n)
    requires NoInner(cur, []) && NoInner(cur, [DOT])
    requires forall i | 0 <= i < n :: !OccursAt(cur, Framed(DOTDOT), i)
    requires if nn < 0 then SLASH !in cur[..n] else nn < n && cur[nn] == SLASH && SLASH !in cur[nn + 1..n]
    ensures n + 3 < |cur| && (nn < 0 ==> n == 0)
    ensures var next := cur[..if nn < 0 then 0 else nn] + cur[n + 3..];
            && next != [] && next[0] == SLASH
            && RemoveDots(next) == RemoveDots(cur)
            && (forall x | NoInner(cur, x) :: NoInner(next, x))
  {
    hide RemoveDots, NoInner;
    FramedEnds(cur, DOTDOT, n);
    RootSlashIn(cur, n);
    if nn < 0 {
      CutRootDotDot(cur);
      assert cur[..0] + cur[3..] == cur[3..];
    } else {
      CutDotDot(cur, n, nn);
    }
  }

  /** One removal; false when there is nothing left to remove. */
  method DropDotDot(dst: array<Byte>, size: nat) returns (found: bool, end: nat)
    requires 0 < size <= dst.Length && dst[0] == SLASH
    requires NoInner(dst[..size], []) && NoInner(dst[..size], [DOT])
    modifies dst
    ensures !found ==> end == size && dst[..] == old(dst[..]) && NoInner(dst[..end], DOTDOT)
    ensures found ==>
              && 0 < end < size && dst[0] == SLASH
              && RemoveDots(dst[..end]) == RemoveDots(old(dst[..size]))
              && (forall x | NoInner(old(dst[..size]), x) :: NoInner(dst[..end], x))
  {
    hide RemoveDots, NoInner, OccursAt;
    ghost var cur := dst[..size];
    found, end := false, size;
    var n := Index(dst[..size], Framed(DOTDOT));
    if n < 0 {
      NoInnerIff(cur, DOTDOT);
      return;
    }
    var nn := LastIndexByte(dst[..n], SLASH);
    FramedEnds(cur, DOTDOT, n);
    assert dst[..n] == cur[..n];
    assert nn >= 0 ==> cur[..n][nn + 1..] == cur[nn + 1..n];
    DotDotFound(cur, n, nn);
    if nn < 0 {
      nn := 0;
    }
    n := n + 3;
    ghost var next := cur[..nn] + cur[n..];
    assert dst[..nn] == cur[..nn] && dst[n..size] == cur[n..];
    end := Cut(dst, nn, n, size);
    assert dst[..end] == next && dst[0] == next[0];
    found := true;
  }

  /** "/foo/../" parts. */
  method DropDotDots(dst: array<Byte>, size: nat) returns (end: nat)
    requires 0 < size <= dst.Length && dst[0] == SLASH
    requires NoInner(dst[..size], []) && NoInner(dst[..size], [DOT])
    modifies dst
    ensures 0 < end <= size && dst[0] == SLASH
    ensures RemoveDots(dst[..end]) == RemoveDots(old(dst[..size]))
    ensures NoInner(dst[..end], []) && NoInner(dst[..end], [DOT]) && NoInner(dst[..end], DOTDOT)
  {
    end := size;
    var found := true;
    while found
      invariant 0 < end <= size && dst[0] == SLASH
      invariant RemoveDots(dst[..end]) == RemoveDots(old(dst[..size]))
      invariant NoInner(dst[..end], []) && NoInner(dst[..end], [DOT])
      invariant !found ==> NoInner(dst[..end], DOTDOT)
      decreases end, found
    {
      hide RemoveDots, NoInner;
      found, end := DropDotDot(dst, end);
    }
  }

  /** The position of the last "/..", or -1. */
  method LastIndexDotDot(s: Text) returns (n: int)
    ensures n >= 0 ==> OccursAt(s, SLASH_DOTDOT, n)
    ensures n < 0 ==> n == -1
    ensures forall i: nat | i > n :: !OccursAt(s, SLASH_DOTDOT, i)
  {
    n := |s| - 3;
    if n < 0 {
      n := -1;
    }
    while n >= 0 && s[n..n + 3] != SLASH_DOTDOT
      invariant -1 <= n && (n >= 0 ==> n + 3 <= |s|)
      invariant forall i: nat | i > n :: !OccursAt(s, SLASH_DOTDOT, i)
    {
      n := n - 1;
    }
  }

  /** The whole of normalizePath: for every input, the segment-stack result. */
  method NormalizePath(src: Text) returns (path: Text)
    ensures path == Normalize(src)
  {
    var text: Text := [];
    if |src| == 0 || src[0] != SLASH {
      text := [SLASH];
    }
    text := DecodeArgAppend(text, src, false);
    assert text == Rooted(src);
    var dst := new Byte[|text|](i requires 0 <= i < |text| => text[i]);
    assert dst[..] == text;

    var size := DropDuplicateSlashes(dst);
    size := DropDots(dst, size);
    var end := DropDotDots(dst, size);

    var b := dst[..end];
    path := TrimTail(b);
    NormalIsFixed(path);
  }

  /** A trailing "/foo/..". */
  method TrimTail(b: Text) returns (path: Text)
    requires b != [] && b[0] == SLASH
    requires NoInner(b, []) && NoInner(b, [DOT]) && NoInner(b, DOTDOT)
    ensures RemoveDots(path) == RemoveDots(b) && Normal(path)
  {
    hide RemoveDots, NoInner;
    var n := LastIndexDotDot(b);
    if n >= 0 && n + 3 == |b| {
      assert b[n..n + 3] == b[n..];
      var nn := LastIndexByte(b[..n], SLASH);
      RootSlashIn(b, n);
      if nn < 0 {
        assert b == SLASH_DOTDOT;
        path := [SLASH];
        RootOnly();
        return;
      }
      assert b[..n][nn + 1..] == b[nn + 1..n];
      CutTail(b, n, nn);
      path := b[..nn + 1];
    } else {
      path := b;
      assert EndsWith(b, SLASH_DOTDOT) ==> OccursAt(b, SLASH_DOTDOT, |b| - 3) by {
        assert |b| >= 3 ==> b[|b| - 3..] == b[|b| - 3..|b| - 3 + 3];
      }
    }
    NoInnerIff(path, []);
    NoInnerIff(path, [DOT]);
    NoInnerIff(path, DOTDOT);
  }

  lemma RootOnly()
    ensures RemoveDots(SLASH_DOTDOT) == [SLASH] == RemoveDots([SLASH])
    ensures Normal([SLASH])
  {
    SplitCat([], DOTDOT);
    SplitPlain(DOTDOT);
    SplitPlain([]);
    SplitCat([], []);
    assert [] + [SLASH] + DOTDOT == SLASH_DOTDOT && [] + [SLASH] + [] == [SLASH];
    assert Split(SLASH_DOTDOT) == [[], DOTDOT] && Split([SLASH]) == [[], []];
    PushOne([], []);
    var e: seq<Text> := [[]];
    assert [[], DOTDOT][..1] == e && (e + e)[..1] == e && e + [] + e == e + e;
    assert (e + e)[1..] == e && Join(e + e) == [SLASH];
    assert Finish([], DOTDOT) == [SLASH] == Finish([], []);
    RemoveDotsIsNormal([SLASH]);
  }

  // ---------------------------------------------------------------------------
  // Printing and re-parsing
  // ---------------------------------------------------------------------------

  /** Every output is rooted, has no "//", "/./" or "/../", and does not end in "/..". */
  lemma NormalizeIsNormal(src: Text)
    ensures Normal(Normalize(src))
  {
    RemoveDotsIsNormal(Rooted(src));
  }

  lemma QuotedStartsWithSlash(p: Text)
    requires p != [] && p[0] == SLASH
    ensures QuotePath(p) != [] && QuotePath(p)[0] == SLASH
  {
  }

  /** A path is printed and parsed back unchanged exactly when it is a normal one. */
  lemma {:induction false} PrintParseStable(p: Text)
    ensures Normalize(QuotePath(p)) == p <==> Normal(p)
  {
    if Normal(p) {
      QuotedStartsWithSlash(p);
      DecodeQuotePath(p);
      NormalIsFixed(p);
    } else {
      NormalizeIsNormal(QuotePath(p));
    }
  }

  /** So normalising, printing and normalising again changes nothing more. */
  lemma NormalizeTwice(src: Text)
    ensures Normalize(QuotePath(Normalize(src))) == Normalize(src)
  {
    NormalizeIsNormal(src);
    PrintParseStable(Normalize(src));
  }
}
