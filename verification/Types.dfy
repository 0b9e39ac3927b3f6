/** Values shared by every component: bytes, digests, stored payloads and error codes. */
module Types {
  type Byte = b: int | 0 <= b < 256
  type Bytes = seq<Byte>

  datatype Option<+T> = None | Some(value: T)

  datatype Errno = EIO | EINVAL | ENOENT | EEXIST | EISDIR | ENOTDIR | ENOTEMPTY | EPERM | EAGAIN | Internal

  datatype Result<+T> = Ok(value: T) | Err(errno: Errno)

  /** The SHA-256 digest of a block.  The hash is taken to be injective, which a free
      constructor states exactly: two blocks share a digest only when they are equal. */
  datatype Digest = Digest(data: Bytes)

  /** What a block file or an inline column holds.  Decompression undoes compression, and a
      compressed payload is never mistaken for a plain one. */
  datatype Payload = Plain(data: Bytes) | Zstd(data: Bytes)

  /** Tier 1 is hot and tier 2 is cold. */
  datatype Tier = Hot | Cold

  function Other(t: Tier): Tier { if t == Hot then Cold else Hot }

  type InodeId = int

  function Encode(data: Bytes, compressed: bool): Payload {
    if compressed then Zstd(data) else Plain(data)
  }

  function Min(a: int, b: int): int { if a <= b then a else b }

  function Max(a: int, b: int): int { if a <= b then b else a }

  function Zeros(n: nat): (z: Bytes)
    ensures |z| == n && forall k :: 0 <= k < n ==> z[k] == 0
  {
    seq(n, _ => 0)
  }

  /** Python's `data[:n].ljust(n, b"\0")`. */
  function Fit(data: Bytes, n: nat): (r: Bytes)
    ensures |r| == n
    ensures forall k :: 0 <= k < n ==> r[k] == if k < |data| then data[k] else 0
  {
    if n <= |data| then data[..n] else data + Zeros(n - |data|)
  }

  lemma SomeMember(ids: set<InodeId>)
    requires ids != {}
    ensures exists id :: id in ids
  {
    assert (forall id :: id !in ids) ==> ids == {};
  }
}
