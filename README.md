# BinaryFile: a cursor-addressed byte file with fixed-width integer I/O

This project models `BinaryFile` from `binary.py` of the GestionDB-RequestLanguage
repository. This class is the byte-level codec that the table storage engine is built on. A
`BinaryFile` wraps a random-access binary file and offers:

- positioning (`goto`);
- a size query (`get_size`), which reads everything from the cursor to the end;
- writes of signed little-endian integers of a given width at the cursor (`write_integer`)
  or at a given position (`write_integer_to`);
- the matching reads (`read_integer`, `read_integer_from`).

The model has three modules:

- `LittleEndian` (`little_endian.dfy`) holds the pure codec. `EncodeLE` is Python's
  `n.to_bytes(size, 'little', signed=True)` and `DecodeLE` is
  `int.from_bytes(bs, 'little', signed=True)`. Bytes are integers in 0..255. An integer is
  representable on `k` bytes when `-256^k <= 2n < 256^k`. For `k = 0` only `0` qualifies,
  as in Python.
- `Binary` (`binary.dfy`) holds the class `BinaryFile`. Its state is the file's contents
  (`bytes: seq<byte>`) and its position (`cursor: nat`), which every method updates in place.
  Two pure functions describe the underlying Python file operations:
  - `Overwrite` is `write`. It overwrites bytes at the cursor and extends the file when needed.
    A non-empty write with the cursor past the end zero-fills the gap. An empty write
    (`size` 0) changes nothing.
  - `ReadChunk` is `read(size)`. It returns at most `size` bytes, and none at or past the end.
- `BinaryScenarios` (`binary_scenarios.dfy`) replays the byte-exact expectations of
  `test.py` through the class's contracts.

Where the code and its doc comments disagree, the model follows the code:

- `goto` with a negative argument calls `seek(-pos, whence = 2)` (binary.py:19). The `seek`
  of a Python binary file takes its arguments by position only, so this call raises
  `TypeError`, and the cursor does not move. The model returns `Raised(TypeError)` from
  `Goto` and `Failed(TypeError)` from `WriteIntegerTo` and `ReadIntegerFrom`, with the file
  unchanged. The doc comment promises a seek to `|pos|` bytes before the end.
- `get_size` is documented as the size of the file (binary.py:23), and test.py:92 expects
  the whole file length right after a write. The code returns only the number of bytes
  after the cursor. That number is 0 right after a write that ends at the end of the file
  (`BinaryScenarios.SizeAfterWriteScenario`).

Exceptions the code lets escape are modelled as returned values (`Outcome`, `Result`),
with the file's state as the exception leaves it.

## Model

| member | source | states |
|---|---|---|
| LittleEndian.EncodeLE | binary.py:31 | Defined for `n` satisfying the helper predicate `InSignedRange`, which is the range `to_bytes` accepts without `OverflowError`. For such `n`, the encoding has exactly `size` bytes. Its unsigned little-endian value is `n` for `n >= 0` and `n + 256^size` for `n < 0`, which is two's complement. |
| LittleEndian.DecodeLE | binary.py:67 | The decoded value always fits the signed range of `\|bs\|` bytes. It is negative exactly when the most significant (last) byte is 128 or more. The empty sequence decodes to 0. |
| LittleEndian.RoundTrip | binary.py:62-67 | Decoding the `size`-byte encoding of any representable `n` gives back `n`. |
| LittleEndian.EncodeOfDecode | binary.py:67 | Every byte sequence is the encoding of its own decoded value, so the encoding is onto. Together with RoundTrip, encoding and decoding are inverse bijections. |
| LittleEndian.SignInLastByte | binary.py:31 | For `size > 0`, `n` is negative exactly when the last byte of its encoding is 128 or more. |
| LittleEndian.UnsignedBytesValue | binary.py:31 | The `k` low-order bytes of an unsigned `u < 256^k`, read back little-endian, give `u`. |
| LittleEndian.UnsignedLast | binary.py:67 | In the little-endian reading, the last byte weighs `256^(k-1)`. |
| Binary.Overwrite | binary.py:30-31 | Writing a non-empty chunk at a position gives length `max(old length, pos + \|chunk\|)`. The result holds the chunk at `[pos, pos + \|chunk\|)`, zeros in a gap past the old end, and the old bytes everywhere else. An empty chunk leaves the file unchanged, even past the end. |
| Binary.ReadChunk | binary.py:65-66 | A read of `size` bytes at `pos` returns `min(size, length - pos)` bytes, or none when `pos` is at or past the end. Those bytes are the file's bytes from `pos` on. |
| Binary.ReadBackChunk | binary.py:66 | Reading `\|chunk\|` bytes at the position just written gives back exactly the chunk, whatever the file held before. |
| Binary.ReadIntegerAfterWrite | binary.py:69-76 | After `n` is written on `size` bytes at `pos`, reading `size` bytes from `pos` decodes to `n`, for every representable `n`. |
| Binary.ConsecutiveWrites | test.py:68-70 | Writing `a` at `pos` and then `b` right after it is the same as writing `a + b` at `pos`. |
| Binary.AppendWrite | binary.py:31 | A write at the end of the file appends the chunk. |
| Binary.ReadOutsideWrite | binary.py:28-32 | For a region inside the old file, a write that does not overlap the region leaves what a read of that region returns unchanged. |
| Binary.BinaryFile.constructor | binary.py:8-10 | Wraps a file with the given contents and position. |
| Binary.BinaryFile.Goto | binary.py:12-19 | The contents are unchanged. A position `pos >= 0` becomes the cursor and the outcome is `Done`. A negative `pos` gives `Raised(TypeError)` and leaves the cursor where it was, as the keyword `whence` argument to `seek` does. |
| Binary.BinaryFile.GetSize | binary.py:22-24 | Returns the number of bytes from the cursor to the end (0 when the cursor is at or past it, and so 0 on an empty file). Moves the cursor to the end, except that a cursor already past the end stays where it is. Leaves the contents unchanged. |
| Binary.BinaryFile.WriteInteger | binary.py:28-32 | Returns `size` and advances the cursor by exactly `size`. The new contents are the encoding of `n` written over the old ones at the cursor. Requires `InSignedRange(n, size)`. For `size > 0` the length becomes `max(old length, cursor + size)`. For `size` 0 the file is unchanged. Bytes outside `[cursor, cursor + size)` are unchanged. Reading `size` bytes back at the old cursor gives `n`. |
| Binary.BinaryFile.WriteIntegerTo | binary.py:35-41 | Runs `Goto(pos)` and then `WriteInteger(n, size)`. For `pos >= 0` it returns `Ok(size)`, writes the encoding at `pos`, leaves the cursor at `pos + size`, and makes `n` readable there. For `pos < 0` it returns `Failed(TypeError)` and writes nothing. |
| Binary.BinaryFile.ReadInteger | binary.py:62-67 | Leaves the contents unchanged. Returns the decoding of the bytes `read(size)` yields at the cursor, and advances the cursor by the number of bytes read, which is `min(size, length - cursor)` and `size` when they are all there. The result fits `size` bytes. |
| Binary.BinaryFile.ReadIntegerFrom | binary.py:69-76 | Runs `Goto(pos)` and then `ReadInteger(size)`, and leaves the contents unchanged. For `pos >= 0` it returns `Ok` of the decoding of the bytes read at `pos` and leaves the cursor after them. For `pos < 0` it returns `Failed(TypeError)` and the cursor does not move. |
| BinaryScenarios.WriteIntegerScenario | test.py:64-73 | On an empty file, writing 1 on 1 byte, 2 on 2 bytes and 3 on 1 byte, then reading 4 bytes from offset 0, gives 0x03000201. This holds both after `goto(0)` with `read_integer` and with `read_integer_from`. |
| BinaryScenarios.DecodeExample | test.py:72 | The bytes 01 02 00 03 decode to 0x03000201. |
| BinaryScenarios.EmptySizeScenario | test.py:86-90 | `get_size()` on an empty file returns 0. |
| BinaryScenarios.NegativeSeekScenario | binary.py:69-76 | On a file holding 01 02, `read_integer_from(4, -1)` raises `TypeError`, and the contents and cursor stay as they were. |
| BinaryScenarios.SizeAfterWriteScenario | binary.py:22-24 | Right after a 4-byte write on an empty file, `get_size()` returns 0 while the file holds 4 bytes. |

## Left out

- `write_string`, `write_string_to`, `read_string`, `read_string_from` (binary.py:44-59, binary.py:79-94) are not modelled:
  - they depend on Python's UTF-8 `str.encode` and `bytes.decode`, which are outside this model;
  - as written, they do not write the 2-byte length prefix that test.py:80 expects, and `read_string` decodes the remaining bytes in reverse order.
- The `writable()`, `readable()`, `seekable()` and `isinstance(pos, int)` guards (binary.py:15, binary.py:30, binary.py:39, binary.py:65, binary.py:74) are not modelled. The file is taken to be readable, writable and seekable, and positions are integers. On an unreadable file the code would fail with an unbound local variable.
- Binary.BinaryFile.Goto: the `TypeError` that binary.py:19 raises for a negative position is a returned `Raised(TypeError)`, not a propagating exception.
- Binary.BinaryFile.WriteIntegerTo: the `TypeError` from its `goto` call is a returned `Failed(TypeError)`, not a propagating exception.
- Binary.BinaryFile.ReadIntegerFrom: the `TypeError` from its `goto` call is a returned `Failed(TypeError)`, not a propagating exception.
- Binary.BinaryFile.WriteInteger and Binary.BinaryFile.WriteIntegerTo require `n` to be representable on `size` bytes. The code raises `OverflowError` from `to_bytes` in that case, and the model has no exception path for it.
- Negative `size` arguments are not modelled: every width is a `nat`. In Python, `to_bytes` rejects a negative length, and `read(-1)` reads to the end of the file.
- The underlying file object, the operating system and the file system are not modelled. The file is its contents plus its position.
- `database.py` is not part of this model. Its `Database` methods are empty stubs, and `list_tables` reads from an attribute the class never defines.
- The table-file layout that test.py:98-465 asserts is not modelled, because no code in the repository produces it. The same applies to the directory handling and front-end runs in those tests.
