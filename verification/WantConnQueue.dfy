/** The two-stage queue of waiters behind the connection pool (client.go, wantConnQueue).
    The two Go slices are modelled with their backing arrays, so that the reuse of
    the old head's storage as the new tail, and the absence of aliasing, are explicit. */
module WantConnQueues {
  import opened Options

  /** What clearFront leaves of a queue: everything from the first waiter still waiting. */
  function DropSettled<T>(q: seq<T>, waiting: T -> bool): (r: seq<T>) {
    if q == [] || waiting(q[0]) then q else DropSettled(q[1..], waiting)
  }

  /** DropSettled removes exactly the maximal prefix of settled waiters and nothing else. */
  lemma {:induction false} DropSettledIsDeadPrefix<T>(q: seq<T>, waiting: T -> bool)
    ensures var r := DropSettled(q, waiting);
            && |r| <= |q| && r == q[|q| - |r|..]
            && (forall i | 0 <= i < |q| - |r| :: !waiting(q[i]))
            && (r != [] ==> waiting(r[0]))
  {
    if q != [] && !waiting(q[0]) {
      DropSettledIsDeadPrefix(q[1..], waiting);
      var r := DropSettled(q, waiting);
      assert forall i | 1 <= i < |q| :: q[i] == q[1..][i - 1];
    }
  }

  function Values<T>(s: seq<Option<T>>): (r: seq<T>)
    requires forall i | 0 <= i < |s| :: s[i].Some?
    ensures |r| == |s|
  {
    seq(|s|, i requires 0 <= i < |s| => s[i].value)
  }

  class WantConnQueue<T(==)> {
    var head: array<Option<T>>
    var headLen: nat
    var headPos: nat
    var tail: array<Option<T>>
    var tailLen: nat

    ghost function Repr(): set<object>
      reads this
    {
      {this, head, tail}
    }

    /** The live head never shares storage with the tail, popped slots are cleared,
        and every slot between the positions is filled. */
    ghost predicate Valid()
      reads this, head, tail
    {
      && head != tail
      && headPos <= headLen <= head.Length
      && tailLen <= tail.Length
      && (forall i | 0 <= i < headPos :: head[i] == None)
      && (forall i | headPos <= i < headLen :: head[i].Some?)
      && (forall i | 0 <= i < tailLen :: tail[i].Some?)
    }

    /** The abstract FIFO: head[headPos:] followed by tail. */
    ghost function Contents(): (s: seq<T>)
      reads this, head, tail
      requires Valid()
    {
      Values(head[headPos..headLen]) + Values(tail[..tailLen])
    }

    constructor ()
      ensures Valid() && fresh(Repr())
      ensures Contents() == []
    {
      headLen, headPos, tailLen := 0, 0, 0;
      head := new Option<T>[0];
      tail := new Option<T>[0];
    }

    method Len() returns (n: nat)
      requires Valid()
      ensures n == |Contents()|
    {
      n := headLen - headPos + tailLen;
    }

    /** A full tail is copied to storage of its own. */
    method Grow()
      requires Valid()
      modifies this`tail
      ensures Valid() && fresh(tail) && tail.Length > tailLen
      ensures Contents() == old(Contents())
    {
      var grown := new Option<T>[2 * tail.Length + 1];
      forall i | 0 <= i < tailLen {
        grown[i] := tail[i];
      }
      ghost var was := tail[..tailLen];
      tail := grown;
      assert tail[..tailLen] == was;
    }

    method PushBack(w: T)
      requires Valid()
      modifies this, head, tail
      ensures Valid() && fresh(Repr() - old(Repr()))
      ensures Contents() == old(Contents()) + [w]
    {
      if tailLen == tail.Length {
        Grow();
      }
      ghost var was := tail[..tailLen];
      tail[tailLen] := Some(w);
      tailLen := tailLen + 1;
      assert tail[..tailLen] == was + [Some(w)];
    }

    /** The old head's storage, all of it cleared, becomes the new tail. */
    method SwapStages()
      requires Valid() && headPos == headLen
      modifies this
      ensures Valid() && Repr() == old(Repr()) && headPos == 0 && headLen == old(tailLen)
      ensures head == old(tail) && tail == old(head)
      ensures Contents() == old(Contents())
    {
      head, headPos, headLen, tail, tailLen := tail, 0, tailLen, head, 0;
      assert Values(head[..headLen]) == old(Contents());
    }

    /** None stands for the nil returned on an empty queue. */
    method PopFront() returns (w: Option<T>)
      requires Valid()
      modifies this, head, tail
      ensures Valid() && Repr() == old(Repr())
      ensures w == if old(Contents()) == [] then None else Some(old(Contents())[0])
      ensures Contents() == if w == None then [] else old(Contents())[1..]
    {
      if headPos >= headLen {
        if tailLen == 0 {
          return None;
        }
        SwapStages();
      }
      ghost var was := Contents();
      w := head[headPos];
      assert Some(was[0]) == w;
      head[headPos] := None;
      headPos := headPos + 1;
      assert Contents() == was[1..];
    }

    method PeekFront() returns (w: Option<T>)
      requires Valid()
      ensures w == if Contents() == [] then None else Some(Contents()[0])
    {
      if headPos < headLen {
        return head[headPos];
      }
      if tailLen > 0 {
        return tail[0];
      }
      return None;
    }

    /** Pops the settled waiters at the front and reports whether there were any. */
    method ClearFront(waiting: T -> bool) returns (cleaned: bool)
      requires Valid()
      modifies this, head, tail
      ensures Valid() && Repr() == old(Repr())
      ensures Contents() == DropSettled(old(Contents()), waiting)
      ensures cleaned <==> Contents() != old(Contents())
    {
      cleaned := false;
      while true
        invariant Valid() && Repr() == old(Repr())
        invariant |Contents()| <= |old(Contents())|
        invariant if cleaned then |Contents()| < |old(Contents())| else Contents() == old(Contents())
        invariant DropSettled(Contents(), waiting) == DropSettled(old(Contents()), waiting)
        decreases |Contents()|
      {
        var w := PeekFront();
        if w == None || waiting(w.value) {
          return;
        }
        var _ := PopFront();
        cleaned := true;
      }
    }
  }
}
