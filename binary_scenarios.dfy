/**
 * The byte-level behaviour test.py pins down for `BinaryFile`, replayed
 * through the class's contracts on a fresh, empty temporary file.
 */
module BinaryScenarios {
  import opened LittleEndian
  import opened Binary

  /**
   * test.py:64-73: writing 1 on one byte, 2 on two bytes and 3 on one byte from
   * offset 0, then reading four bytes from offset 0 (once after `goto(0)`, once
   * with `read_integer_from`) gives 0x03000201 both times.
   */
  method WriteIntegerScenario() returns (viaGoto: int, viaFrom: int)
    ensures viaGoto == 0x03000201
    ensures viaFrom == 0x03000201
  {
    var file := new BinaryFile([], 0);
    var w1 := file.WriteInteger(1, 1);
    var w2 := file.WriteInteger(2, 2);
    var w3 := file.WriteInteger(3, 1);
    assert file.bytes == [1, 2, 0, 3] by {
      assert EncodeLE(1, 1) == [1] by { UnsignedBytesLiteral(1, 1); }
      assert EncodeLE(2, 2) == [2, 0] by { UnsignedBytesLiteral(2, 2); }
      assert EncodeLE(3, 1) == [3] by { UnsignedBytesLiteral(3, 1); }
      AppendWrite([], [1]);
      AppendWrite([1], [2, 0]);
      AppendWrite([1, 2, 0], [3]);
    }
    assert ReadChunk([1, 2, 0, 3], 0, 4) == [1, 2, 0, 3];
    DecodeExample();
    var moved := file.Goto(0);
    viaGoto := file.ReadInteger(4);
    var r := file.ReadIntegerFrom(4, 0);
    viaFrom := r.value;
  }

  /** The four bytes 01 02 00 03 read little-endian are 0x03000201. */
  lemma DecodeExample()
    ensures DecodeLE([1, 2, 0, 3]) == 0x03000201
  {
    assert [1, 2, 0, 3][1..] == [2, 0, 3];
    assert [2, 0, 3][1..] == [0, 3];
    assert [0, 3][1..] == [3];
    assert [3][1..] == [];
    assert Unsigned([3]) == 3;
    assert Unsigned([0, 3]) == 0x300;
    assert Unsigned([2, 0, 3]) == 0x30002;
  }

  /** test.py:86-90: the size of an empty file is 0. */
  method EmptySizeScenario() returns (size: nat)
    ensures size == 0
  {
    var file := new BinaryFile([], 0);
    size := file.GetSize();
  }

  /**
   * binary.py:69-76 with a negative position: on a file holding 01 02,
   * `read_integer_from(4, -1)` raises `TypeError` from `goto` and leaves the
   * file and its cursor as they were.
   */
  method NegativeSeekScenario() returns (r: Result<int>, contents: seq<byte>, position: nat)
    ensures r == Failed(TypeError)
    ensures contents == [1, 2] && position == 0
  {
    var file := new BinaryFile([1, 2], 0);
    r := file.ReadIntegerFrom(4, -1);
    contents, position := file.bytes, file.cursor;
  }

  /**
   * binary.py:22-24 counts only the bytes after the cursor: right after a write
   * that ends at the end of the file, `get_size()` returns 0, not the file's
   * length of 4 bytes.
   */
  method SizeAfterWriteScenario() returns (size: nat, length: nat)
    ensures size == 0 && length == 4
  {
    var file := new BinaryFile([], 0);
    var written := file.WriteInteger(0x01020304, 4);
    size := file.GetSize();
    length := |file.bytes|;
  }

  /** A small value encodes as itself followed by zero bytes. */
  lemma {:induction false} UnsignedBytesLiteral(u: nat, k: nat)
    requires 0 < k && u < 256
    ensures UnsignedBytes(u, k) == [u] + Zeros(k - 1)
  {
    if k > 1 {
      UnsignedBytesLiteral(0, k - 1);
      assert [0] + Zeros(k - 2) == Zeros(k - 1);
    }
  }
}
