/** The buffered reader the body routines consume. What the peer sends is fixed in advance; how
    much of it one Read returns is not. Its only error is the end of the input. */
module ByteSource {
  import opened Bytes
  import opened Options

  class BufReader {
    const data: Text
    var pos: nat

    ghost predicate Valid()
      reads this
    {
      pos <= |data|
    }

    /** What has not been read yet. */
    ghost function Rest(): Text
      reads this
      requires Valid()
    {
      data[pos..]
    }

    constructor (data: Text)
      ensures Valid() && this.data == data && pos == 0 && Rest() == data
    {
      this.data, pos := data, 0;
    }

    /** None is io.EOF. */
    method ReadByte() returns (c: Option<Byte>)
      requires Valid()
      modifies this
      ensures Valid() && pos == old(pos) + if c.Some? then 1 else 0
      ensures c.Some? <==> old(Rest()) != []
      ensures c.Some? ==> old(Rest()) == [c.value] + Rest()
    {
      if pos == |data| {
        return None;
      }
      c := Some(data[pos]);
      pos := pos + 1;
    }

    method UnreadByte()
      requires Valid() && pos > 0
      modifies this
      ensures Valid() && pos == old(pos) - 1 && Rest() == [data[pos]] + old(Rest())
    {
      pos := pos - 1;
    }

    /** Up to max bytes, at least one if there are any and max > 0; none at the end of the input. */
    method Read(max: nat) returns (p: Text)
      requires Valid()
      modifies this
      ensures Valid() && old(Rest()) == p + Rest() && |p| <= max
      ensures p == [] <==> max == 0 || old(Rest()) == []
    {
      var left := |data| - pos;
      if max == 0 || left == 0 {
        return [];
      }
      var n :| 1 <= n <= max && n <= left;
      p := data[pos..pos + n];
      pos := pos + n;
    }
  }
}
