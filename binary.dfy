/**
 * `BinaryFile` (binary.py): a random-access byte file with a cursor, and the
 * fixed-width integer reads and writes performed at that cursor.
 *
 * The underlying Python file object is modelled by its two pieces of state: the
 * file's bytes and the current position. A position may lie past the end of the
 * file: reading there yields no bytes, and writing one or more bytes there first
 * fills the gap with zero bytes, as a Python binary file does; writing no bytes
 * changes nothing.
 *
 * An exception the code lets escape is modelled as a returned `Raised` value
 * with the file's state as the exception leaves it.
 */
module Binary {
  import opened LittleEndian

  /** The exceptions the modelled operations can raise. */
  datatype Error =
    | TypeError  // `seek` called with a keyword argument

  /** The outcome of an operation that returns nothing or raises. */
  datatype Outcome = Done | Raised(error: Error)

  /** The outcome of an operation that returns a value or raises. */
  datatype Result<T> = Ok(value: T) | Failed(error: Error)

  /** n zero bytes: what a write past the end puts into the gap. */
  function Zeros(n: nat): (r: seq<byte>)
    ensures |r| == n
    ensures forall i :: 0 <= i < n ==> r[i] == 0
  {
    seq(n, _ => 0)
  }

  /**
   * The contents after writing `chunk` at position `pos` of `data`: the chunk
   * overwrites what was there, the file grows when the chunk runs past its end,
   * and a gap between the old end and `pos` is zero-filled. An empty chunk
   * writes nothing and leaves the file as it was, wherever `pos` lies.
   */
  function Overwrite(data: seq<byte>, pos: nat, chunk: seq<byte>): (r: seq<byte>)
    ensures |r| == if |chunk| > 0 && pos + |chunk| > |data| then pos + |chunk| else |data|
    ensures |chunk| > 0 ==> r[pos..pos + |chunk|] == chunk
    ensures forall i :: 0 <= i < pos && i < |data| ==> r[i] == data[i]
    ensures |chunk| > 0 ==> forall i :: |data| <= i < pos ==> r[i] == 0
    ensures forall i :: pos + |chunk| <= i < |data| ==> r[i] == data[i]
    ensures chunk == [] ==> r == data
  {
    if chunk == [] then data
    else
      var padded := if pos <= |data| then data else data + Zeros(pos - |data|);
      var after := if pos + |chunk| < |padded| then padded[pos + |chunk|..] else [];
      padded[..pos] + chunk + after
  }

  /**
   * The bytes `read(size)` returns from position `pos`: at most `size` of them,
   * fewer when the end of the file comes first, none from at or past the end.
   */
  function ReadChunk(data: seq<byte>, pos: nat, size: nat): (r: seq<byte>)
    ensures |r| == if pos >= |data| then 0 else if pos + size <= |data| then size else |data| - pos
    ensures forall i :: 0 <= i < |r| ==> r[i] == data[pos + i]
  {
    if pos >= |data| then []
    else if pos + size <= |data| then data[pos..pos + size]
    else data[pos..]
  }

  /** Reading back the bytes just written at a position gives exactly those bytes. */
  lemma ReadBackChunk(data: seq<byte>, pos: nat, chunk: seq<byte>)
    ensures ReadChunk(Overwrite(data, pos, chunk), pos, |chunk|) == chunk
  {
    var after := Overwrite(data, pos, chunk);
    var back := ReadChunk(after, pos, |chunk|);
    if chunk == [] {
      return;
    }
    assert |back| == |chunk|;
    forall i | 0 <= i < |chunk| ensures back[i] == chunk[i] {
      assert after[pos..pos + |chunk|][i] == after[pos + i];
    }
  }

  /**
   * Round trip through the file: writing n on `size` bytes at `pos` and reading
   * `size` bytes back from `pos` gives n, whatever the file held before.
   */
  lemma ReadIntegerAfterWrite(data: seq<byte>, pos: nat, n: int, size: nat)
    requires InSignedRange(n, size)
    ensures DecodeLE(ReadChunk(Overwrite(data, pos, EncodeLE(n, size)), pos, size)) == n
  {
    ReadBackChunk(data, pos, EncodeLE(n, size));
    RoundTrip(n, size);
  }

  /** Two writes one after the other are one write of the two chunks joined. */
  lemma ConsecutiveWrites(data: seq<byte>, pos: nat, a: seq<byte>, b: seq<byte>)
    ensures Overwrite(Overwrite(data, pos, a), pos + |a|, b) == Overwrite(data, pos, a + b)
  {
    var first := Overwrite(data, pos, a);
    var both := Overwrite(first, pos + |a|, b);
    var joined := Overwrite(data, pos, a + b);
    if a == [] {
      assert a + b == b;
      return;
    }
    if b == [] {
      assert a + b == a;
      return;
    }
    assert |both| == |joined|;
    forall i | 0 <= i < |both| ensures both[i] == joined[i] {
      if pos <= i < pos + |a| {
        assert first[pos..pos + |a|][i - pos] == first[i];
        assert joined[pos..pos + |a + b|][i - pos] == joined[i];
      } else if pos + |a| <= i < pos + |a| + |b| {
        assert both[pos + |a|..pos + |a| + |b|][i - pos - |a|] == both[i];
        assert joined[pos..pos + |a + b|][i - pos] == joined[i];
      }
    }
  }

  /** A write at the end of the file appends. */
  lemma AppendWrite(data: seq<byte>, chunk: seq<byte>)
    ensures Overwrite(data, |data|, chunk) == data + chunk
  {
    var after := Overwrite(data, |data|, chunk);
    if chunk == [] {
      assert data + chunk == data;
      return;
    }
    forall i | |data| <= i < |after| ensures after[i] == chunk[i - |data|] {
      assert after[|data|..|data| + |chunk|][i - |data|] == after[i];
    }
  }

  /** A write far from a region leaves what a read of that region sees unchanged. */
  lemma ReadOutsideWrite(data: seq<byte>, pos: nat, chunk: seq<byte>, from: nat, size: nat)
    requires from + size <= pos || pos + |chunk| <= from
    requires from + size <= |data|
    ensures ReadChunk(Overwrite(data, pos, chunk), from, size) == ReadChunk(data, from, size)
  {
    var after := Overwrite(data, pos, chunk);
    assert |ReadChunk(after, from, size)| == size;
  }

  class BinaryFile {
    /** The file's contents. */
    var bytes: seq<byte>
    /** The file's current position, which may lie past the end. */
    var cursor: nat

    /** Wraps a file whose contents are `contents` and whose position is `position`. */
    constructor (contents: seq<byte>, position: nat)
      ensures bytes == contents && cursor == position
    {
      bytes := contents;
      cursor := position;
    }

    /**
     * `goto(pos)`: a position `pos >= 0` becomes the cursor. For a negative
     * `pos` the code calls `seek(-pos, whence = 2)`; the `seek` of a Python
     * binary file takes its arguments by position only, so that call raises
     * `TypeError` before the cursor moves. The contents are untouched either way.
     */
    method Goto(pos: int) returns (outcome: Outcome)
      modifies this
      ensures bytes == old(bytes)
      ensures pos >= 0 ==> outcome == Done && cursor == pos
      ensures pos < 0 ==> outcome == Raised(TypeError) && cursor == old(cursor)
    {
      if pos >= 0 {
        cursor := pos;
        outcome := Done;
      } else {
        outcome := Raised(TypeError);
      }
    }

    /**
     * `get_size()`: reads everything from the cursor to the end and returns how
     * many bytes that was; the cursor ends at the end of the file (or stays
     * where it was when it was already past the end).
     */
    method GetSize() returns (size: nat)
      modifies this
      ensures bytes == old(bytes)
      ensures size == if old(cursor) <= |bytes| then |bytes| - old(cursor) else 0
      ensures cursor == if old(cursor) <= |bytes| then |bytes| else old(cursor)
      ensures bytes == [] ==> size == 0
    {
      var rest := if cursor < |bytes| then bytes[cursor..] else [];
      size := |rest|;
      cursor := cursor + size;
    }

    /**
     * `write_integer(n, size)`: writes n as `size` bytes of little-endian two's
     * complement at the cursor and returns `size`; the cursor moves past them.
     */
    method WriteInteger(n: int, size: nat) returns (written: nat)
      requires InSignedRange(n, size)
      modifies this
      ensures written == size
      ensures bytes == Overwrite(old(bytes), old(cursor), EncodeLE(n, size))
      ensures cursor == old(cursor) + size
      ensures |bytes| == if size > 0 && old(cursor) + size > |old(bytes)| then old(cursor) + size else |old(bytes)|
      ensures size == 0 ==> bytes == old(bytes)
      ensures forall i :: 0 <= i < |bytes| && !(old(cursor) <= i < cursor) && i < |old(bytes)|
                ==> bytes[i] == old(bytes)[i]
      ensures DecodeLE(ReadChunk(bytes, old(cursor), size)) == n
    {
      ReadIntegerAfterWrite(bytes, cursor, n, size);
      bytes := Overwrite(bytes, cursor, EncodeLE(n, size));
      cursor := cursor + size;
      written := size;
    }

    /**
     * `write_integer_to(n, size, pos)`: `goto(pos)`, then the write of
     * `write_integer(n, size)`; when `goto` raises, nothing is written.
     */
    method WriteIntegerTo(n: int, size: nat, pos: int) returns (r: Result<nat>)
      requires InSignedRange(n, size)
      modifies this
      ensures pos >= 0 ==> r == Ok(size)
      ensures pos >= 0 ==> cursor == pos + size
      ensures pos >= 0 ==> bytes == Overwrite(old(bytes), pos, EncodeLE(n, size))
      ensures pos >= 0 ==> DecodeLE(ReadChunk(bytes, pos, size)) == n
      ensures pos < 0 ==> r == Failed(TypeError) && bytes == old(bytes) && cursor == old(cursor)
    {
      var moved := Goto(pos);
      if moved.Raised? {
        return Failed(moved.error);
      }
      var written := WriteInteger(n, size);
      r := Ok(written);
    }

    /**
     * `read_integer(size)`: reads up to `size` bytes at the cursor and decodes
     * them as a signed little-endian integer; the cursor moves past the bytes
     * actually read and the contents are untouched.
     */
    method ReadInteger(size: nat) returns (n: int)
      modifies this
      ensures bytes == old(bytes)
      ensures n == DecodeLE(ReadChunk(bytes, old(cursor), size))
      ensures cursor == old(cursor) + |ReadChunk(bytes, old(cursor), size)|
      ensures old(cursor) + size <= |bytes| ==> cursor == old(cursor) + size
      ensures InSignedRange(n, size)
    {
      var chunk := ReadChunk(bytes, cursor, size);
      SignedRangeWidens(DecodeLE(chunk), |chunk|, size);
      n := DecodeLE(chunk);
      cursor := cursor + |chunk|;
    }

    /**
     * `read_integer_from(size, pos)`: `goto(pos)`, then `read_integer(size)`;
     * when `goto` raises, nothing is read.
     */
    method ReadIntegerFrom(size: nat, pos: int) returns (r: Result<int>)
      modifies this
      ensures bytes == old(bytes)
      ensures pos >= 0 ==> r == Ok(DecodeLE(ReadChunk(bytes, pos, size)))
      ensures pos >= 0 ==> cursor == pos + |ReadChunk(bytes, pos, size)|
      ensures pos < 0 ==> r == Failed(TypeError) && cursor == old(cursor)
    {
      var moved := Goto(pos);
      if moved.Raised? {
        return Failed(moved.error);
      }
      var n := ReadInteger(size);
      r := Ok(n);
    }
  }
}
