/** The chunked range reader of the blob migration, and the copy loops that drain it. */
module BlobRange {
  type Bytes = seq<bv8>

  const READ_CHUNK := 0x40_0000  // 4 MiB

  /** An answer of GetRange: an error, or some bytes and the object's total size. */
  datatype Range = Failed | Range(data: Bytes, total: int)

  datatype Status = Ok | Eof | Err

  function Min(a: int, b: int): int {
    if a < b then a else b
  }

  /** A backend may fail or return too little, but never bytes that are not the object's. */
  ghost predicate Faithful(blob: Bytes, offset: int, r: Range) {
    r.Range? ==> r.total == |blob| && 0 <= offset <= |blob| && r.data <= blob[offset..]
  }

  function Limit(total: int, offset: int): int {
    Min(READ_CHUNK, total - offset)
  }

  /** The answer is not the full chunk asked for, or disagrees about the size. */
  predicate Rejected(total: int, offset: int, r: Range) {
    r.Failed? || r.total != total || |r.data| != Limit(total, offset)
  }

  class Reader {
    ghost const blob: Bytes
    const total: int
    var offset: int
    var buffer: Bytes

    /** The buffer is the object's slice at the offset, and any byte read proves the recorded size right. */
    ghost predicate Valid()
      reads this
    {
      && 0 <= offset && offset + |buffer| <= |blob|
      && buffer == blob[offset..offset + |buffer|]
      && (offset + |buffer| > 0 ==> total == |blob|)
    }

    constructor (ghost blob: Bytes, total: int)
      ensures Valid() && this.blob == blob && this.total == total && offset == 0 && buffer == []
    {
      this.blob, this.total := blob, total;
      offset, buffer := 0, [];
    }

    /** response is what GetRange(offset, limit) would answer now. */
    method Read(p: array<bv8>, response: Range) returns (n: int, status: Status)
      requires Valid() && Faithful(blob, offset, response)
      modifies this, p
      ensures Valid()
      ensures status == Err <==>
                p.Length > 0 && old(buffer) == [] && old(offset) < total && Rejected(total, old(offset), response)
      ensures status == Eof <==> p.Length > 0 && old(buffer) == [] && old(offset) >= total
      ensures status == Ok && p.Length > 0 ==> 0 < n <= p.Length && old(offset) + n <= |blob|
                                               && p[..n] == blob[old(offset)..old(offset) + n]
      ensures offset == old(offset) + n && (status != Ok || p.Length == 0 ==> n == 0)
    {
      if p.Length == 0 { return 0, Ok; }
      if |buffer| == 0 {
        if offset >= total { return 0, Eof; }
        var limit := READ_CHUNK;
        if total - offset < limit { limit := total - offset; }
        if response.Failed? { return 0, Err; }
        if response.total != total || |response.data| != limit { return 0, Err; }
        buffer := response.data;
        assert buffer == blob[offset..][..|buffer|];
      }
      n := Min(p.Length, |buffer|);
      ghost var slice := buffer;
      forall i | 0 <= i < n { p[i] := buffer[i]; }
      buffer := buffer[n..];
      offset := offset + n;
      assert p[..n] == slice[..n];
      status := Ok;
    }
  }

  /** What draining a reader to EOF yields: the blob, or nothing when the recorded size is not positive. */
  function Delivered(blob: Bytes, total: int): Bytes {
    if total > 0 then blob else []
  }

  /** Read to EOF with any buffer sizes; GetRange answers as respond says. */
  method CopyAll(ghost blob: Bytes, total: int, respond: int -> Range, sizes: nat -> nat)
    returns (ok: bool, bytes: Bytes)
    requires forall o :: Faithful(blob, o, respond(o))
    requires forall k :: sizes(k) > 0
    ensures ok ==> bytes == Delivered(blob, total) && (total > 0 ==> total == |blob|)
    ensures !ok ==> exists o :: 0 <= o < total && Rejected(total, o, respond(o))
    ensures bytes <= blob
  {
    var r := new Reader(blob, total);
    bytes := [];
    var k: nat := 0;
    while true
      invariant r.Valid() && fresh(r) && r.blob == blob && r.total == total
      invariant bytes == blob[..r.offset]
      decreases |blob| - r.offset
    {
      var p := new bv8[sizes(k)];
      k := k + 1;
      ghost var before := r.offset;
      var n, status := r.Read(p, respond(r.offset));
      if status == Eof {
        assert r.buffer == [] && r.offset >= total;
        return true, bytes;
      }
      if status == Err { return false, bytes; }
      bytes := bytes + p[..n];
      assert bytes == blob[..r.offset];
    }
  }

  /** Before EOF a reader returns exactly the blob, except when a recorded size of zero hides a non-empty one. */
  lemma DeliveredIsObject(blob: Bytes, total: int)
    ensures Delivered(blob, total) == blob <==> total > 0 || blob == []
  {
  }

  method EqualBytes(a: Bytes, b: Bytes) returns (same: bool)
    ensures same <==> a == b
  {
    if |a| != |b| { return false; }
    var different: bv8 := 0;
    for i := 0 to |a|
      invariant different == 0 <==> a[..i] == b[..i]
    {
      OrXor(different, a[i], b[i]);
      assert a[..i + 1] == a[..i] + [a[i]] && b[..i + 1] == b[..i] + [b[i]];
      different := different | (a[i] ^ b[i]);
    }
    assert a[..|a|] == a && b[..|b|] == b;
    return different == 0;
  }

  lemma OrXor(d: bv8, x: bv8, y: bv8)
    ensures d | (x ^ y) == 0 <==> d == 0 && x == y
  {
  }
}
