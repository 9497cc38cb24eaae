/**
 The per-path write buffer both backends keep between `create` and
 `release`: an `io.BytesIO`.  Each operation first seeks, so the stream
 position never carries over from one call to the next and the buffer is
 just its bytes.
 */
module WriteBuffer {
  import opened Types

  type Bytes = seq<byte>

  function Max(a: int, b: int): int { if a < b then b else a }
  function Min(a: int, b: int): int { if a < b then a else b }

  function Zeros(n: nat): (z: Bytes)
    ensures |z| == n && forall i :: 0 <= i < n ==> z[i] == 0
  {
    if n == 0 then [] else [0] + Zeros(n - 1)
  }

  /**
   `b.seek(offset); b.write(data)`: the data lands at `[offset, offset+|data|)`,
   a gap past the old end reads as zeros, and every other byte is kept.
   Writing nothing changes nothing, even past the end (CPython's `BytesIO`
   returns early on an empty write).
   */
  function WriteAt(buf: Bytes, data: Bytes, offset: nat): (r: Bytes)
    ensures |r| == if |data| == 0 then |buf| else Max(|buf|, offset + |data|)
    ensures forall i :: 0 <= i < |data| ==> r[offset + i] == data[i]
    ensures |data| > 0 ==> forall i :: 0 <= i < offset ==> r[i] == if i < |buf| then buf[i] else 0
    ensures forall i :: offset + |data| <= i < |r| ==> r[i] == buf[i]
    ensures |data| == 0 ==> r == buf
  {
    if |data| == 0 then buf
    else if offset <= |buf| then
      buf[..offset] + data + (if offset + |data| < |buf| then buf[offset + |data|..] else [])
    else
      buf + Zeros(offset - |buf|) + data
  }

  /**
   `b.seek(offset); b.read(size)`, and equally the slice `b[offset:offset+size]`:
   the bytes from `offset` on, at most `size` of them, clipped at the end.
   */
  function ReadAt(buf: Bytes, offset: nat, size: nat): (r: Bytes)
    ensures |r| == if offset >= |buf| then 0 else Min(size, |buf| - offset)
    ensures forall i :: 0 <= i < |r| ==> r[i] == buf[offset + i]
  {
    if offset >= |buf| then []
    else if offset + size <= |buf| then buf[offset..offset + size]
    else buf[offset..]
  }

  /** `b.seek(0); b.truncate(length)`: a `BytesIO` only ever shrinks. */
  function Truncate(buf: Bytes, length: nat): (r: Bytes)
    ensures |r| == Min(length, |buf|)
    ensures r == buf[..|r|]
  {
    if length < |buf| then buf[..length] else buf
  }

  /** Reading back what was just written returns exactly the written bytes. */
  lemma ReadAfterWrite(buf: Bytes, data: Bytes, offset: nat)
    ensures ReadAt(WriteAt(buf, data, offset), offset, |data|) == data
  {
    var w := WriteAt(buf, data, offset);
    if |data| > 0 {
      assert ReadAt(w, offset, |data|) == w[offset..offset + |data|];
    }
  }

  /** A fresh buffer written from offset 0 holds exactly the written bytes. */
  lemma FreshWrite(data: Bytes)
    ensures WriteAt([], data, 0) == data
  {
  }

  /** Truncating to the current length or more leaves the buffer alone; to less, keeps the head. */
  lemma TruncateThenRead(buf: Bytes, length: nat)
    ensures ReadAt(Truncate(buf, length), 0, length) == buf[..Min(length, |buf|)]
  {
  }
}
