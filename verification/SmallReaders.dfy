/** The pool of small file readers (fs.go): the guard in smallFileReader looks for a reader that came
    back from the pool in the middle of a file. */
module SmallReaders {

  /** pooled: the reader is in smallFileReaderPool and nobody holds it. */
  datatype Reader = Reader(startPos: int, endPos: int, pooled: bool)

  datatype Action =
    | New(contentLength: int)                        // the pool was empty, or had dropped its readers
    | Reuse(i: nat, contentLength: int)
    | UpdateByteRange(i: nat, startPos: int, endPos: int)
    | Read(i: nat, n: nat)
    | Close(i: nat)

  /** The position a new request finds in a pooled reader is what the guard tests. */
  predicate Guarded(rs: seq<Reader>, i: nat)
    requires i < |rs|
  {
    rs[i].startPos > 0
  }

  predicate Exists(rs: seq<Reader>, a: Action) {
    match a
    case New(_) => true
    case Reuse(i, _) => i < |rs| && rs[i].pooled
    case UpdateByteRange(i, _, _) => i < |rs|
    case Read(i, _) => i < |rs|
    case Close(i) => i < |rs|
  }

  /** Is the reader the action works on in the hands of a request? */
  predicate ByHolder(rs: seq<Reader>, a: Action)
    requires Exists(rs, a)
  {
    match a
    case UpdateByteRange(i, _, _) => !rs[i].pooled
    case Read(i, _) => !rs[i].pooled
    case _ => true
  }

  function Apply(rs: seq<Reader>, a: Action): seq<Reader>
    requires Exists(rs, a)
  {
    match a
    case New(n) => rs + [Reader(0, n, false)]
    case Reuse(i, n) => rs[i := Reader(rs[i].startPos, n, false)]
    case UpdateByteRange(i, s, e) => rs[i := rs[i].(startPos := s, endPos := e + 1)]
    case Read(i, n) => rs[i := rs[i].(startPos := rs[i].startPos + n)]
    case Close(i) => rs[i := Reader(0, 0, true)]
  }

  predicate IsRun(rs: seq<Reader>, acts: seq<Action>, rs': seq<Reader>)
    decreases |acts|
  {
    if acts == [] then rs' == rs
    else Exists(rs, acts[0]) && ByHolder(rs, acts[0]) && IsRun(Apply(rs, acts[0]), acts[1..], rs')
  }

  lemma {:induction false} PooledAtStart(rs: seq<Reader>, acts: seq<Action>, rs': seq<Reader>)
    requires forall i | 0 <= i < |rs| && rs[i].pooled :: rs[i].startPos == 0
    requires IsRun(rs, acts, rs')
    ensures forall i | 0 <= i < |rs'| && rs'[i].pooled :: rs'[i].startPos == 0
    decreases |acts|
  {
    if acts != [] {
      PooledAtStart(Apply(rs, acts[0]), acts[1..], rs');
    }
  }

  /** As long as nobody touches a reader after closing it, the guard never fires. */
  lemma GuardNeverFires(acts: seq<Action>, rs: seq<Reader>, i: nat)
    requires IsRun([], acts, rs) && i < |rs| && rs[i].pooled
    ensures !Guarded(rs, i)
  {
    PooledAtStart([], acts, rs);
  }

  /** A read after the close is enough to make it fire. */
  lemma GuardFiresAfterClose()
    ensures var closed := Apply(Apply([], New(10)), Close(0));
            Exists(closed, Read(0, 1)) && Guarded(Apply(closed, Read(0, 1)), 0)
  {
  }
}
