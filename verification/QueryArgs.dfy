/** Query arguments (args.go): printing, scanning, and the reuse of old slots. */
module QueryArgs {
  import opened Bytes
  import opened PercentCodec

  datatype ArgsKV = ArgsKV(key: Text, value: Text, noValue: bool) {
    predicate Empty() { key == [] && value == [] }
  }

  // ---------------------------------------------------------------------------
  // Specification
  // ---------------------------------------------------------------------------

  function PrintArg(kv: ArgsKV): Text {
    QuoteArg(kv.key) + if kv.noValue then [] else [EQUALS] + QuoteArg(kv.value)
  }

  function PrintArgs(args: seq<ArgsKV>): Text {
    if args == [] then []
    else if |args| == 1 then PrintArg(args[0])
    else PrintArg(args[0]) + [AMP] + PrintArgs(args[1..])
  }

  /** Where c first stands in b from position i on, |b| if nowhere. */
  function Find(b: Text, c: Byte, i: nat): (n: nat)
    requires i <= |b|
    ensures i <= n <= |b| && c !in b[i..n] && (n < |b| ==> b[n] == c)
    decreases |b| - i
  {
    if i == |b| || b[i] == c then i else
      var n := Find(b, c, i + 1);
      assert b[i..n] == [b[i]] + b[i + 1..n];
      n
  }

  function ParseField(field: Text): ArgsKV {
    var e := Find(field, EQUALS, 0);
    if e < |field| then ArgsKV(Decode(field[..e], true), Decode(field[e + 1..], true), false)
    else ArgsKV(Decode(field, true), [], true)
  }

  /** The query is cut at every '&'; entries whose key and value are both empty are dropped. */
  function Parse(b: Text): seq<ArgsKV>
    decreases |b|
  {
    if b == [] then []
    else
      var n := Find(b, AMP, 0);
      var kv := ParseField(b[..n]);
      var rest := if n < |b| then b[n + 1..] else [];
      (if kv.Empty() then [] else [kv]) + Parse(rest)
  }

  /** What a list of arguments is after printing and parsing. */
  function Canon(kv: ArgsKV): ArgsKV {
    if kv.noValue then kv.(value := []) else kv
  }

  function Kept(args: seq<ArgsKV>): seq<ArgsKV> {
    if args == [] then []
    else (if Canon(args[0]).Empty() then [] else [Canon(args[0])]) + Kept(args[1..])
  }

  // ---------------------------------------------------------------------------
  // Parsing undoes printing
  // ---------------------------------------------------------------------------

  lemma {:induction false} FindAfter(a: Text, c: Byte, b: Text, i: nat)
    requires c !in a && i <= |a|
    ensures Find(a + [c] + b, c, i) == |a|
    decreases |a| - i
  {
    if i < |a| {
      assert (a + [c] + b)[i] == a[i] && a[i] in a;
      FindAfter(a, c, b, i + 1);
    }
  }

  lemma FindNone(a: Text, c: Byte)
    requires c !in a
    ensures Find(a, c, 0) == |a|
  {
  }

  lemma ParsePrintedField(kv: ArgsKV)
    ensures ParseField(PrintArg(kv)) == Canon(kv) && AMP !in PrintArg(kv)
    ensures PrintArg(kv) == [] ==> Canon(kv).Empty()
  {
    QuoteArgHasNoSeparators(kv.key);
    QuoteArgHasNoSeparators(kv.value);
    DecodeQuoteArg(kv.key);
    DecodeQuoteArg(kv.value);
    var k, v := QuoteArg(kv.key), QuoteArg(kv.value);
    if kv.noValue {
      assert PrintArg(kv) == k;
      FindNone(k, EQUALS);
    } else {
      var field := k + [EQUALS] + v;
      assert PrintArg(kv) == field;
      FindAfter(k, EQUALS, v, 0);
      assert field[..|k|] == k && field[|k| + 1..] == v;
    }
  }

  lemma {:induction false} ParseOne(field: Text)
    requires AMP !in field
    ensures Parse(field) == if field == [] || ParseField(field).Empty() then [] else [ParseField(field)]
  {
    if field != [] {
      FindNone(field, AMP);
      assert field[..|field|] == field;
    }
  }

  lemma ParseCons(field: Text, rest: Text)
    requires AMP !in field
    ensures Parse(field + [AMP] + rest)
         == (if ParseField(field).Empty() then [] else [ParseField(field)]) + Parse(rest)
  {
    var b := field + [AMP] + rest;
    FindAfter(field, AMP, rest, 0);
    assert b[..|field|] == field && b[|field| + 1..] == rest;
  }

  /** For every list of arguments: printing and parsing keep the keys, values and flags in order,
      drop the entries that are empty and forget the value of an entry without value. */
  lemma {:induction false} ParsePrint(args: seq<ArgsKV>)
    ensures Parse(PrintArgs(args)) == Kept(args)
  {
    if args != [] {
      ParsePrintedField(args[0]);
      if |args| == 1 {
        ParseOne(PrintArg(args[0]));
        assert args[1..] == [];
      } else {
        ParseCons(PrintArg(args[0]), PrintArgs(args[1..]));
        ParsePrint(args[1..]);
      }
    }
  }

  ghost predicate RoundTrips(args: seq<ArgsKV>) {
    forall kv | kv in args :: !kv.Empty() && (kv.noValue ==> kv.value == [])
  }

  lemma {:induction false} KeptShrinks(args: seq<ArgsKV>)
    ensures |Kept(args)| <= |args|
    ensures Kept(args) == args <==> RoundTrips(args)
  {
    if args != [] {
      KeptShrinks(args[1..]);
      assert args == [args[0]] + args[1..];
    }
  }

  /** The round trip is exact for precisely the lists without an entry that is empty,
      and without a value where the flag says there is none. */
  lemma {:induction false} ParsePrintExact(args: seq<ArgsKV>)
    ensures Parse(PrintArgs(args)) == args <==> RoundTrips(args)
  {
    ParsePrint(args);
    KeptShrinks(args);
  }

  // ---------------------------------------------------------------------------
  // The scanner and the argument list
  // ---------------------------------------------------------------------------

  class ArgsScanner {
    var b: Text

    constructor (b: Text)
      ensures this.b == b
    {
      this.b := b;
    }

    /** next(kv): kv is what the reused slot held before, and nothing of it survives. */
    method Next(old_kv: ArgsKV) returns (more: bool, kv: ArgsKV)
      modifies this
      ensures more <==> old(b) != []
      ensures !more ==> kv == old_kv && b == []
      ensures more ==> var n := Find(old(b), AMP, 0);
                       && kv == ParseField(old(b)[..n])
                       && b == if n < |old(b)| then old(b)[n + 1..] else []
    {
      kv := old_kv;
      if |b| == 0 {
        return false, kv;
      }
      kv := kv.(noValue := false);
      var isKey := true;
      var k: nat := 0;
      ghost var amp := Find(b, AMP, 0);
      for i := 0 to |b|
        invariant b == old(b) && i <= amp && !kv.noValue
        invariant isKey ==> EQUALS !in b[..i]
        invariant !isKey ==> 0 < k <= i && b[k - 1] == EQUALS && EQUALS !in b[..k - 1]
                             && kv.key == Decode(b[..k - 1], true)
      {
        var c := b[i];
        FirstAmp(b, i);
        if c == EQUALS {
          if isKey {
            isKey := false;
            kv := kv.(key := Decode(b[..i], true));
            k := i + 1;
          }
        } else if c == AMP {
          FieldEnd(b, i, if isKey then i else k - 1, isKey);
          if isKey {
            kv := ArgsKV(Decode(b[..i], true), [], true);
          } else {
            kv := kv.(value := Decode(b[k..i], true));
          }
          b := b[i + 1..];
          return true, kv;
        }
      }
      FieldEnd(b, |b|, if isKey then |b| else k - 1, isKey);
      assert b[..|b|] == b && (!isKey ==> b[k..|b|] == b[k..]);
      if isKey {
        kv := ArgsKV(Decode(b, true), [], true);
      } else {
        kv := kv.(value := Decode(b[k..], true));
      }
      b := b[|b|..];
      return true, kv;
    }
  }

  lemma FirstAmp(b: Text, i: nat)
    requires i < |b| && i <= Find(b, AMP, 0)
    ensures b[i] == AMP <==> i == Find(b, AMP, 0)
  {
    var n := Find(b, AMP, 0);
    assert i < n ==> b[i] in b[0..n];
  }

  /** The field b[..n], when its first '=' is at e, or when it has none (e == n). */
  lemma FieldEnd(b: Text, n: nat, e: nat, isKey: bool)
    requires e <= n <= |b| && EQUALS !in b[..e] && (isKey <==> e == n)
    requires !isKey ==> b[e] == EQUALS
    ensures ParseField(b[..n]) == if isKey then ArgsKV(Decode(b[..n], true), [], true)
                                  else ArgsKV(Decode(b[..e], true), Decode(b[e + 1..n], true), false)
  {
    var field := b[..n];
    if isKey {
      FindNone(field, EQUALS);
    } else {
      FindAfter(b[..e], EQUALS, b[e + 1..n], 0);
      assert field == b[..e] + [EQUALS] + b[e + 1..n];
      assert field[..e] == b[..e] && field[e + 1..] == b[e + 1..n];
    }
  }

  class Args {
    var slots: seq<ArgsKV>   // the backing array: everything from n on is left over
    var n: nat

    ghost predicate Valid()
      reads this
    {
      n <= |slots|
    }

    ghost function View(): seq<ArgsKV>
      reads this
      requires Valid()
    {
      slots[..n]
    }

    constructor ()
      ensures Valid() && View() == []
    {
      slots, n := [], 0;
    }

    method AllocArg()
      requires Valid()
      modifies this
      ensures Valid() && n == old(n) + 1 && View()[..old(n)] == old(View())
    {
      if |slots| <= n {
        slots := slots + [ArgsKV([], [], false)];
      }
      n := n + 1;
    }

    /** s.next on the last slot. */
    method ScanSlot(s: ArgsScanner) returns (more: bool, kv: ArgsKV)
      requires Valid() && n > 0
      modifies this`slots, s
      ensures Valid() && slots[..n - 1] == old(slots[..n - 1]) && slots[n - 1] == kv
      ensures Parse(old(s.b)) == if more && !kv.Empty() then [kv] + Parse(s.b) else Parse(s.b)
      ensures if more then |s.b| < |old(s.b)| else s.b == []
    {
      hide Parse, ParseField, Find;
      ParseUnfold(s.b);
      more, kv := s.Next(slots[n - 1]);
      slots := slots[n - 1 := kv];
    }

    method ParseBytes(b: Text)
      requires Valid()
      modifies this
      ensures Valid() && View() == Parse(b)
    {
      hide Parse;
      n := 0;
      var s := new ArgsScanner(b);
      AllocArg();
      ghost var done: seq<ArgsKV> := [];
      var more := true;
      while more
        invariant Valid() && n > 0 && fresh(s)
        invariant slots[..n - 1] == done
        invariant done + Parse(s.b) == Parse(b)
        invariant !more ==> s.b == []
        decreases |s.b|, more
      {
        var kv;
        more, kv := ScanSlot(s);
        if more && (|kv.key| > 0 || |kv.value| > 0) {
          Append3(done, [kv], Parse(s.b));
          done := done + [kv];
          assert slots[..n] == done;
          AllocArg();
        }
      }
      ParseUnfold([]);
      n := n - 1;
    }

    method AppendBytes(dst: Text) returns (r: Text)
      requires Valid()
      ensures r == dst + PrintArgs(View())
    {
      r := dst;
      ghost var args := View();
      for i := 0 to n
        invariant r + PrintArgs(args[i..]) == dst + PrintArgs(args)
      {
        hide PrintArgs, PrintArg;
        PrintFrom(args, i);
        ghost var before, field, rest := r, PrintArg(args[i]), PrintArgs(args[i + 1..]);
        r := AppendArg(r, slots[i]);
        if i + 1 < n {
          Append3(before, field, [AMP] + rest);
          Append3(r, [AMP], rest);
          r := r + [AMP];
        } else {
          PrintNil(args[i + 1..]);
          Append3(before, field, rest);
        }
      }
    }
  }

  method AppendArg(dst: Text, kv: ArgsKV) returns (r: Text)
    ensures r == dst + PrintArg(kv)
  {
    r := AppendQuotedArg(dst, kv.key);
    if !kv.noValue {
      r := r + [EQUALS];
      if |kv.value| > 0 {
        r := AppendQuotedArg(r, kv.value);
      }
    }
  }

  lemma ParseUnfold(b: Text)
    ensures b == [] ==> Parse(b) == []
    ensures b != [] ==>
              var n := Find(b, AMP, 0);
              var kv := ParseField(b[..n]);
              var rest := if n < |b| then b[n + 1..] else [];
              |rest| < |b| && Parse(b) == if kv.Empty() then Parse(rest) else [kv] + Parse(rest)
  {
  }

  lemma PrintNil(args: seq<ArgsKV>)
    requires args == []
    ensures PrintArgs(args) == []
  {
  }

  lemma PrintFrom(args: seq<ArgsKV>, i: nat)
    requires i < |args|
    ensures PrintArgs(args[i..])
         == PrintArg(args[i]) + if i + 1 < |args| then [AMP] + PrintArgs(args[i + 1..]) else []
  {
    assert args[i..][0] == args[i] && args[i..][1..] == args[i + 1..];
  }
}
