/** Path normalisation as a stack of segments, close to section 5.2.4 of RFC 3986, and what
    cutting a segment out of a path does to it. */
module PathSegments {
  import opened Bytes

  const DOTDOT: Text := [DOT, DOT]

  function Split(s: Text): (segs: seq<Text>)
    ensures |segs| >= 1
  {
    if s == [] then [[]]
    else
      var rest := Split(s[1..]);
      if s[0] == SLASH then [[]] + rest else [[s[0]] + rest[0]] + rest[1..]
  }

  function Join(segs: seq<Text>): Text
    requires |segs| >= 1
  {
    if |segs| == 1 then segs[0] else segs[0] + [SLASH] + Join(segs[1..])
  }

  /** What a segment that is not the last one does to the segments kept so far. */
  function Push(stack: seq<Text>, seg: Text): seq<Text> {
    if seg == [] || seg == [DOT] then stack
    else if seg == DOTDOT then if stack == [] then [] else stack[..|stack| - 1]
    else stack + [seg]
  }

  function PushAll(stack: seq<Text>, segs: seq<Text>): seq<Text>
    decreases |segs|
  {
    if segs == [] then stack else PushAll(Push(stack, segs[0]), segs[1..])
  }

  /** A final ".." pops and leaves a trailing slash, any other final segment stays, "." included. */
  function Finish(stack: seq<Text>, last: Text): Text {
    if last == DOTDOT then Join([[]] + Push(stack, DOTDOT) + [[]]) else Join([[]] + stack + [last])
  }

  function RemoveDots(path: Text): Text {
    var segs := Split(path);
    Finish(PushAll([], segs[..|segs| - 1]), segs[|segs| - 1])
  }

  // ---------------------------------------------------------------------------
  // Splitting and joining
  // ---------------------------------------------------------------------------

  lemma SplitCons(c: Byte, s: Text)
    ensures Split([c] + s) == if c == SLASH then [[]] + Split(s) else [[c] + Split(s)[0]] + Split(s)[1..]
  {
    assert ([c] + s)[1..] == s;
  }

  lemma DropFirst<T>(a: seq<T>, b: seq<T>)
    requires a != []
    ensures (a + b)[0] == a[0] && (a + b)[1..] == a[1..] + b
  {
  }

  lemma SplitCatStep(c: Byte, a: Text, rest: Text, b: seq<Text>)
    requires Split(rest) == Split(a) + b
    ensures Split([c] + rest) == Split([c] + a) + b
  {
    hide Split;
    SplitCons(c, rest);
    SplitCons(c, a);
    if c == SLASH {
      Append3([[]], Split(a), b);
    } else {
      DropFirst(Split(a), b);
      Append3([[c] + Split(a)[0]], Split(a)[1..], b);
    }
  }

  lemma {:induction false} SplitCat(a: Text, b: Text)
    ensures Split(a + [SLASH] + b) == Split(a) + Split(b)
  {
    var s := a + [SLASH] + b;
    if a == [] {
      assert s[1..] == b;
    } else {
      SplitCat(a[1..], b);
      hide Split;
      SplitCatStep(a[0], a[1..], a[1..] + [SLASH] + b, Split(b));
      assert s == [a[0]] + (a[1..] + [SLASH] + b) && a == [a[0]] + a[1..];
    }
  }

  lemma {:induction false} SplitPlain(s: Text)
    requires SLASH !in s
    ensures Split(s) == [s]
  {
    if s != [] {
      SplitPlain(s[1..]);
      assert s == [s[0]] + s[1..];
    }
  }

  lemma {:induction false} SplitHasNoSlash(s: Text)
    ensures forall seg | seg in Split(s) :: SLASH !in seg
  {
    if s != [] {
      SplitHasNoSlash(s[1..]);
      var rest := Split(s[1..]);
      assert rest[0] in rest && forall seg | seg in rest[1..] :: seg in rest;
    }
  }

  lemma {:induction false} JoinSplit(s: Text)
    ensures Join(Split(s)) == s
  {
    if s != [] {
      JoinSplit(s[1..]);
      var rest := Split(s[1..]);
      if s[0] == SLASH {
        assert ([[]] + rest)[1..] == rest;
      } else {
        var segs := [[s[0]] + rest[0]] + rest[1..];
        assert segs[1..] == rest[1..];
      }
    }
  }

  lemma {:induction false} SplitJoin(segs: seq<Text>)
    requires |segs| >= 1 && forall seg | seg in segs :: SLASH !in seg
    ensures Split(Join(segs)) == segs
  {
    SplitPlain(segs[0]);
    if |segs| > 1 {
      SplitJoin(segs[1..]);
      SplitCat(segs[0], Join(segs[1..]));
      assert segs == [segs[0]] + segs[1..];
    }
  }

  lemma {:induction false} JoinCat(a: seq<Text>, b: seq<Text>)
    requires a != [] && b != []
    ensures Join(a + b) == Join(a) + [SLASH] + Join(b)
  {
    if |a| == 1 {
      assert (a + b)[1..] == b;
    } else {
      JoinCat(a[1..], b);
      assert (a + b)[1..] == a[1..] + b;
    }
  }

  lemma {:induction false} PushAllCat(stack: seq<Text>, a: seq<Text>, b: seq<Text>)
    ensures PushAll(stack, a + b) == PushAll(PushAll(stack, a), b)
    decreases |a|
  {
    if a == [] {
      assert a + b == b;
    } else {
      hide Push;
      DropFirst(a, b);
      PushAllCat(Push(stack, a[0]), a[1..], b);
    }
  }

  // ---------------------------------------------------------------------------
  // Inner segments and the substrings that betray them
  // ---------------------------------------------------------------------------

  predicate NoInner(path: Text, seg: Text) {
    forall i | 0 < i < |Split(path)| - 1 :: Split(path)[i] != seg
  }

  function Framed(seg: Text): Text {
    [SLASH] + seg + [SLASH]
  }

  /** A segment is an inner one exactly where it stands between two slashes. */
  lemma SplitAtFramed(path: Text, seg: Text, n: nat)
    requires SLASH !in seg && OccursAt(path, Framed(seg), n)
    ensures Split(path) == Split(path[..n]) + [seg] + Split(path[n + |seg| + 2..])
  {
    hide Split;
    var p, q := path[..n], path[n + |seg| + 2..];
    assert path == p + path[n..n + |seg| + 2] + q == p + Framed(seg) + q;
    assert p + Framed(seg) + q == p + [SLASH] + (seg + [SLASH] + q);
    SplitCat(p, seg + [SLASH] + q);
    SplitCat(seg, q);
    SplitPlain(seg);
  }

  lemma FramedWhereInner(path: Text, i: nat) returns (n: nat)
    requires 0 < i < |Split(path)| - 1
    ensures OccursAt(path, Framed(Split(path)[i]), n)
    ensures n == |Join(Split(path)[..i])|
  {
    var segs := Split(path);
    var a, x, b := segs[..i], segs[i], segs[i + 1..];
    JoinSplit(path);
    assert Join([x]) == x;
    hide Split, Join;
    assert segs == a + ([x] + b);
    JoinCat(a, [x] + b);
    JoinCat([x], b);
    assert path == Join(a) + Framed(x) + Join(b);
    n := |Join(a)|;
  }

  lemma NoInnerIff(path: Text, seg: Text)
    requires SLASH !in seg
    ensures NoInner(path, seg) <==> forall n: nat :: !OccursAt(path, Framed(seg), n)
  {
    if n: nat :| OccursAt(path, Framed(seg), n) {
      SplitAtFramed(path, seg, n);
      assert Split(path)[|Split(path[..n])|] == seg;
    } else if i :| 0 < i < |Split(path)| - 1 && Split(path)[i] == seg {
      var n := FramedWhereInner(path, i);
    }
  }

  // ---------------------------------------------------------------------------
  // Cuts that keep the meaning of a path
  // ---------------------------------------------------------------------------

  lemma {:induction false} RemoveDotsSplit(path: Text, a: seq<Text>, q: Text)
    requires Split(path) == a + Split(q)
    ensures RemoveDots(path) == Finish(PushAll(PushAll([], a), Split(q)[..|Split(q)| - 1]), Split(q)[|Split(q)| - 1])
  {
    hide Split, PushAll, Finish;
    var segs := Split(path);
    assert segs[..|segs| - 1] == a + Split(q)[..|Split(q)| - 1];
    PushAllCat([], a, Split(q)[..|Split(q)| - 1]);
  }

  /** Segments between p and q whose pushing changes nothing can be cut out. */
  lemma {:induction false} CutInner(path: Text, p: Text, mid: seq<Text>, q: Text)
    requires Split(path) == Split(p) + mid + Split(q)
    requires PushAll(PushAll([], Split(p)), mid) == PushAll([], Split(p))
    ensures RemoveDots(p + [SLASH] + q) == RemoveDots(path)
    ensures forall seg | NoInner(path, seg) :: NoInner(p + [SLASH] + q, seg)
  {
    hide Split, PushAll, RemoveDots;
    SplitCat(p, q);
    RemoveDotsSplit(p + [SLASH] + q, Split(p), q);
    PushAllCat([], Split(p), mid);
    RemoveDotsSplit(path, Split(p) + mid, q);
    var segs, cut, k := Split(path), Split(p + [SLASH] + q), |Split(p)|;
    assert forall i | 0 < i < |cut| - 1 :: cut[i] == segs[if i < k then i else i + |mid|];
  }

  predicate Ordinary(seg: Text) {
    seg != [] && seg != [DOT] && seg != DOTDOT
  }

  lemma PushPop(stack: seq<Text>, seg: Text)
    requires Ordinary(seg)
    ensures PushAll(stack, [seg, DOTDOT]) == stack
  {
    var pushed := stack + [seg];
    assert [seg, DOTDOT][1..] == [DOTDOT] && [DOTDOT][1..] == [];
    assert PushAll(pushed, [DOTDOT]) == PushAll(Push(pushed, DOTDOT), []);
  }

  lemma PushOne(stack: seq<Text>, seg: Text)
    ensures PushAll(stack, [seg]) == Push(stack, seg)
  {
    assert [seg][1..] == [];
  }

  // ---------------------------------------------------------------------------
  // Normal paths
  // ---------------------------------------------------------------------------

  const SLASH_DOTDOT: Text := [SLASH, DOT, DOT]

  predicate EndsWith(s: Text, suffix: Text) {
    |suffix| <= |s| && s[|s| - |suffix|..] == suffix
  }

  /** The shape every normalised path has. */
  ghost predicate Normal(path: Text) {
    && path != [] && path[0] == SLASH
    && (forall n: nat :: !OccursAt(path, Framed([]), n))
    && (forall n: nat :: !OccursAt(path, Framed([DOT]), n))
    && (forall n: nat :: !OccursAt(path, Framed(DOTDOT), n))
    && !EndsWith(path, SLASH_DOTDOT)
  }

  lemma {:induction false} PushAllOrdinary(stack: seq<Text>, segs: seq<Text>)
    requires forall seg | seg in segs :: Ordinary(seg)
    ensures PushAll(stack, segs) == stack + segs
    decreases |segs|
  {
    if segs != [] {
      assert segs[0] in segs;
      PushAllOrdinary(stack + [segs[0]], segs[1..]);
      assert stack + [segs[0]] + segs[1..] == stack + segs;
    }
  }

  lemma AbsoluteSplit(path: Text)
    requires path != [] && path[0] == SLASH
    ensures |Split(path)| >= 2 && Split(path)[0] == []
  {
  }

  lemma EndsWithLast(path: Text)
    requires EndsWith(path, SLASH_DOTDOT)
    ensures Split(path)[|Split(path)| - 1] == DOTDOT
  {
    var p := path[..|path| - 3];
    assert path == p + path[|path| - 3..] && path[|path| - 3..] == [SLASH] + DOTDOT;
    assert path == p + [SLASH] + DOTDOT;
    SplitPlain(DOTDOT);
    hide Split;
    SplitCat(p, DOTDOT);
  }

  lemma LastEndsWith(path: Text)
    requires path != [] && path[0] == SLASH && Split(path)[|Split(path)| - 1] == DOTDOT
    ensures EndsWith(path, SLASH_DOTDOT)
  {
    AbsoluteSplit(path);
    JoinSplit(path);
    hide Split;
    var segs := Split(path);
    var init := segs[..|segs| - 1];
    assert segs == init + [DOTDOT];
    JoinCat(init, [DOTDOT]);
    assert path == Join(init) + SLASH_DOTDOT;
  }

  /** A normal path means itself. */
  lemma NormalIsFixed(path: Text)
    requires Normal(path)
    ensures RemoveDots(path) == path
  {
    AbsoluteSplit(path);
    NoInnerIff(path, []);
    NoInnerIff(path, [DOT]);
    NoInnerIff(path, DOTDOT);
    var segs := Split(path);
    var n := |segs|;
    var inner, last := segs[1..n - 1], segs[n - 1];
    assert segs[..n - 1] == [[]] + inner;
    assert segs == [[]] + inner + [last];
    PushAllCat([], [[]], inner);
    PushOne([], []);
    assert forall i | 0 <= i < |inner| :: inner[i] == segs[i + 1];
    PushAllOrdinary([], inner);
    assert [] + inner == inner;
    JoinSplit(path);
    if last == DOTDOT {
      LastEndsWith(path);
    }
  }

  lemma {:induction false} PushAllKeepsOrdinary(stack: seq<Text>, segs: seq<Text>)
    requires forall seg | seg in stack :: Ordinary(seg) && SLASH !in seg
    requires forall seg | seg in segs :: SLASH !in seg
    ensures forall seg | seg in PushAll(stack, segs) :: Ordinary(seg) && SLASH !in seg
    decreases |segs|
  {
    if segs != [] {
      assert segs[0] in segs;
      PushAllKeepsOrdinary(Push(stack, segs[0]), segs[1..]);
    }
  }

  /** A rooted list of ordinary segments joins to a normal path. */
  lemma JoinIsNormal(stack: seq<Text>, last: Text)
    requires forall seg | seg in stack :: Ordinary(seg) && SLASH !in seg
    requires SLASH !in last && last != DOTDOT
    ensures Normal(Join([[]] + stack + [last]))
  {
    var segs := [[]] + stack + [last];
    var path := Join(segs);
    SplitJoin(segs);
    assert forall i | 0 < i < |segs| - 1 :: segs[i] == stack[i - 1] && stack[i - 1] in stack;
    NoInnerIff(path, []);
    NoInnerIff(path, [DOT]);
    NoInnerIff(path, DOTDOT);
    assert path[0] == SLASH;
    if EndsWith(path, SLASH_DOTDOT) {
      EndsWithLast(path);
    }
  }

  /** Whatever the path, what is left of it is normal. */
  lemma RemoveDotsIsNormal(path: Text)
    ensures Normal(RemoveDots(path))
  {
    var segs := Split(path);
    var n := |segs|;
    SplitHasNoSlash(path);
    assert forall seg | seg in segs[..n - 1] :: seg in segs;
    PushAllKeepsOrdinary([], segs[..n - 1]);
    var stack := PushAll([], segs[..n - 1]);
    assert segs[n - 1] in segs;
    if segs[n - 1] == DOTDOT {
      JoinIsNormal(Push(stack, DOTDOT), []);
    } else {
      JoinIsNormal(stack, segs[n - 1]);
    }
  }

  // ---------------------------------------------------------------------------
  // Laws on the bytes of a path
  // ---------------------------------------------------------------------------

  lemma SplitAround(p: Text, seg: Text, q: Text)
    requires SLASH !in seg
    ensures Split(p + [SLASH] + seg + [SLASH] + q) == Split(p) + [seg] + Split(q)
  {
    hide Split;
    assert p + [SLASH] + seg + [SLASH] + q == p + [SLASH] + (seg + [SLASH] + q);
    SplitCat(p, seg + [SLASH] + q);
    SplitCat(seg, q);
    SplitPlain(seg);
  }

  /** Between any p and q an empty segment and a "." can be left out, and an ordinary segment together
      with the ".." behind it. */
  lemma InnerLaws(p: Text, seg: Text, q: Text)
    requires Ordinary(seg) && SLASH !in seg
    ensures RemoveDots(p + [SLASH] + [SLASH] + q) == RemoveDots(p + [SLASH] + q)
    ensures RemoveDots(p + [SLASH] + [DOT] + [SLASH] + q) == RemoveDots(p + [SLASH] + q)
    ensures RemoveDots(p + [SLASH] + seg + [SLASH] + DOTDOT + [SLASH] + q) == RemoveDots(p + [SLASH] + q)
  {
    hide Split, PushAll, RemoveDots;
    var stack := PushAll([], Split(p));
    SplitAround(p, [], q);
    PushOne(stack, []);
    assert p + [SLASH] + [] + [SLASH] + q == p + [SLASH] + [SLASH] + q;
    CutInner(p + [SLASH] + [SLASH] + q, p, [[]], q);
    SplitAround(p, [DOT], q);
    PushOne(stack, [DOT]);
    CutInner(p + [SLASH] + [DOT] + [SLASH] + q, p, [[DOT]], q);
    PopLaw(p, seg, q);
  }

  lemma PopLaw(p: Text, seg: Text, q: Text)
    requires Ordinary(seg) && SLASH !in seg
    ensures RemoveDots(p + [SLASH] + seg + [SLASH] + DOTDOT + [SLASH] + q) == RemoveDots(p + [SLASH] + q)
  {
    hide Split, PushAll, RemoveDots;
    var path := p + [SLASH] + seg + [SLASH] + DOTDOT + [SLASH] + q;
    SplitAround(p + [SLASH] + seg, DOTDOT, q);
    SplitCat(p, seg);
    SplitPlain(seg);
    assert Split(path) == Split(p) + [seg, DOTDOT] + Split(q);
    PushPop(PushAll([], Split(p)), seg);
    CutInner(path, p, [seg, DOTDOT], q);
  }

  /** At the root ".." is left out, and at the end it takes the segment before it along and leaves the
      slash; a final "." stays. */
  lemma EndLaws(p: Text, seg: Text, q: Text)
    requires Ordinary(seg) && SLASH !in seg
    ensures RemoveDots([SLASH] + DOTDOT + [SLASH] + q) == RemoveDots([SLASH] + q)
    ensures RemoveDots([SLASH] + DOTDOT) == [SLASH]
    ensures RemoveDots(p + [SLASH] + seg + [SLASH] + DOTDOT) == RemoveDots(p + [SLASH])
  {
    hide Split, PushAll, RemoveDots;
    RootLaw(q);
    LastLaw(p, seg);
  }

  lemma RootAlone()
    ensures Finish([], DOTDOT) == [SLASH]
  {
    var segs: seq<Text> := [[], []];
    assert [[]] + Push([], DOTDOT) + [[]] == segs;
    assert segs[1..] == [[]];
  }

  lemma RootLaw(q: Text)
    ensures RemoveDots([SLASH] + DOTDOT + [SLASH] + q) == RemoveDots([SLASH] + q)
    ensures RemoveDots([SLASH] + DOTDOT) == [SLASH]
  {
    var path := [SLASH] + DOTDOT + [SLASH] + q;
    SplitAround([], DOTDOT, q);
    assert [] + path == path && [] + [SLASH] + q == [SLASH] + q;
    SplitPlain([]);
    SplitPlain(DOTDOT);
    SplitCat([], DOTDOT);
    assert [] + [SLASH] + DOTDOT == [SLASH] + DOTDOT;
    assert [[]] + [DOTDOT] == [[], DOTDOT] && [[], DOTDOT][..1] == [[]];
    assert [] + [SLASH] + DOTDOT + [SLASH] + q == path;
    hide Split, RemoveDots;
    PushOne([], []);
    PushOne([], DOTDOT);
    CutInner(path, [], [DOTDOT], q);
    RemoveDotsSplit([SLASH] + DOTDOT, [[]], DOTDOT);
    assert Split(DOTDOT)[..0] == [];
    RootAlone();
  }

  lemma LastLaw(p: Text, seg: Text)
    requires Ordinary(seg) && SLASH !in seg
    ensures RemoveDots(p + [SLASH] + seg + [SLASH] + DOTDOT) == RemoveDots(p + [SLASH])
  {
    SplitPlain([]);
    hide Split, PushAll;
    var path := p + [SLASH] + seg + [SLASH] + DOTDOT;
    SplitCat(p + [SLASH] + seg, DOTDOT);
    SplitCat(p, seg);
    SplitCat(p, []);
    SplitPlain(seg);
    SplitPlain(DOTDOT);
    assert p + [SLASH] + [] == p + [SLASH];
    var a, stack := Split(p), PushAll([], Split(p));
    assert Split(path) == a + [seg, DOTDOT] == a + [seg] + [DOTDOT];
    assert (a + [seg] + [DOTDOT])[..|a| + 1] == a + [seg] && (a + [[]])[..|a|] == a;
    PushAllCat([], a, [seg]);
    PushOne(stack, seg);
    assert (stack + [seg])[..|stack|] == stack;
  }
}
