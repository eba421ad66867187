/**
 * Bytes, fixed-width little-endian integers and a seekable byte stream: the parts of
 * .NET's BinaryReader, BinaryWriter and MemoryStream that the locres codec relies on.
 */
module Binary {
  import opened Wrappers

  /** A byte, as an integer; bit-level hashing converts it to a bit-vector where needed. */
  type byte = x: int | 0 <= x < 256

  /** A C# uint. */
  type uint32 = x: int | 0 <= x < 0x1_0000_0000

  const TWO_32: int := 0x1_0000_0000
  const TWO_64: int := 0x1_0000_0000_0000_0000

  /** The exceptions the codec can raise, by their .NET names. */
  datatype Error =
    | EndOfStream            // a BinaryReader read ran past the end of the stream
    | ArgumentOutOfRange     // a negative stream position or a negative ReadBytes count
    | Overflow               // an array allocated with a negative length
    | IndexOutOfRange        // an array index outside the array
    | Argument(message: string)
    | ArgumentNull(paramName: string)

  predicate IsInt32(x: int) { -0x8000_0000 <= x < 0x8000_0000 }

  predicate IsInt64(x: int) { -0x8000_0000_0000_0000 <= x < 0x8000_0000_0000_0000 }

  // ---------------------------------------------------------------- 32-bit words

  /** The four little-endian bytes BinaryWriter.Write(uint) emits. */
  function UInt32Bytes(u: uint32): (r: seq<byte>)
    ensures |r| == 4
  {
    [u % 256, u / 0x100 % 256, u / 0x1_0000 % 256, u / 0x100_0000]
  }

  /** The value BinaryReader.ReadUInt32 assembles from four little-endian bytes. */
  function UInt32Of(b: seq<byte>): (u: uint32)
    requires |b| == 4
  {
    var b0, b1, b2, b3: int := b[0], b[1], b[2], b[3];
    b0 + 0x100 * b1 + 0x1_0000 * b2 + 0x100_0000 * b3
  }

  lemma UInt32RoundTrip(u: uint32)
    ensures UInt32Of(UInt32Bytes(u)) == u
  {
    var q1 := u / 0x100;
    var q2 := q1 / 0x100;
    var q3 := q2 / 0x100;
    assert u / 0x1_0000 == q2;
    assert u / 0x100_0000 == q3;
    assert UInt32Bytes(u) == [u % 256, q1 % 256, q2 % 256, q3];
  }

  lemma UInt32BytesRoundTrip(b: seq<byte>)
    requires |b| == 4
    ensures UInt32Bytes(UInt32Of(b)) == b
  {
    var b0, b1, b2, b3: int := b[0], b[1], b[2], b[3];
    var u := UInt32Of(b);
    var r2 := b2 + 0x100 * b3;
    var r1 := b1 + 0x100 * r2;
    assert u == b0 + 0x100 * r1;
    DigitSplit(b0, r1);
    DigitSplit(b1, r2);
    DigitSplit(b2, b3);
    DivDiv(u);
    DivDiv(u / 0x100);
  }

  /** A low byte and the value above it are recovered by division by 256. */
  lemma DigitSplit(low: int, high: int)
    requires 0 <= low < 0x100 && 0 <= high
    ensures (low + 0x100 * high) / 0x100 == high && (low + 0x100 * high) % 0x100 == low
  {
  }

  /** Dividing by 2^16 or 2^24 is dividing by 256 repeatedly. */
  lemma DivDiv(x: int)
    requires 0 <= x
    ensures x / 0x1_0000 == x / 0x100 / 0x100
    ensures x / 0x100_0000 == x / 0x1_0000 / 0x100
  {
  }

  /** The two's-complement reading of a 32-bit word, as a C# int. */
  function SignedValue(u: uint32): (x: int)
    ensures IsInt32(x)
    ensures x % TWO_32 == u
  {
    if u < 0x8000_0000 then u else u - TWO_32
  }

  /** The bytes BinaryWriter.Write(int) emits for the int whose value is x modulo 2^32. */
  function Int32Bytes(x: int): (r: seq<byte>)
    ensures |r| == 4
  {
    UInt32Bytes(x % TWO_32)
  }

  /** The value of C# int arithmetic that wraps at 32 bits. */
  function WrapInt32(x: int): (r: int)
    ensures IsInt32(r)
    ensures IsInt32(x) ==> r == x
    ensures (r - x) % TWO_32 == 0
  {
    SignedValue(x % TWO_32)
  }

  /** Adding to a wrapped value and wrapping again is wrapping the exact sum. */
  lemma WrapAdd(a: int, b: int)
    ensures WrapInt32(WrapInt32(a) + b) == WrapInt32(a + b)
  {
    var d := WrapInt32(a) - a;
    assert d == TWO_32 * (d / TWO_32);
    assert (WrapInt32(a) + b) % TWO_32 == (a + b) % TWO_32;
  }

  /** Equal values give equal bytes (spares the solver from comparing two unfoldings). */
  lemma SameInt32Bytes(x: int, y: int)
    requires x == y
    ensures Int32Bytes(x) == Int32Bytes(y)
  {
  }

  /** Equal parts make equal concatenations. */
  lemma JoinEqual(a: seq<byte>, a': seq<byte>, b: seq<byte>, b': seq<byte>)
    requires a == a' && b == b'
    ensures a + b == a' + b'
  {
  }

  /** Regrouping a concatenation of two parts and what follows them. */
  lemma Regroup2(a: seq<byte>, b: seq<byte>, rest: seq<byte>)
    ensures a + b + rest == a + (b + rest)
  {
  }

  /** Three writes in a row are one write of the three. */
  lemma RegroupWrites3(w: seq<byte>, a: seq<byte>, b: seq<byte>, c: seq<byte>)
    ensures w + a + b + c == w + (a + b + c)
  {
  }

  /** Four writes after `w` are one write of their concatenation. */
  lemma RegroupWrites(w: seq<byte>, a: seq<byte>, b: seq<byte>, c: seq<byte>, d: seq<byte>)
    ensures w + a + b + c + d == w + (a + b + c + d)
  {
  }

  /** What follows a prefix. */
  lemma DropPrefix(a: seq<byte>, b: seq<byte>)
    ensures (a + b)[|a|..] == b
  {
  }

  /** Three parts written after a prefix and followed by a suffix, seen from the first and the third part. */
  lemma DropParts(prefix: seq<byte>, a: seq<byte>, b: seq<byte>, c: seq<byte>, suffix: seq<byte>)
    ensures |prefix| + |a| + |b| <= |prefix + (a + b + c) + suffix|
    ensures (prefix + (a + b + c) + suffix)[|prefix|..] == a + (b + (c + suffix))
    ensures (prefix + (a + b + c) + suffix)[|prefix| + |a| + |b|..] == c + suffix
  {
    var data := prefix + (a + b + c) + suffix;
    assert data == prefix + (a + (b + (c + suffix)));
    DropPrefix(prefix, a + (b + (c + suffix)));
    assert data == (prefix + a + b) + (c + suffix);
    DropPrefix(prefix + a + b, c + suffix);
  }

  /** Where the parts of `whole`, written after `prefix`, begin. */
  lemma SplitAt(prefix: seq<byte>, a: seq<byte>, b: seq<byte>, c: seq<byte>, suffix: seq<byte>,
                whole: seq<byte>, offset: int)
    requires whole == a + b + c && offset == |prefix| + |a| + |b|
    ensures |prefix| <= |prefix + whole + suffix| && 0 <= offset <= |prefix + whole + suffix|
    ensures (prefix + whole + suffix)[|prefix|..] == a + (b + (c + suffix))
    ensures (prefix + whole + suffix)[offset..] == c + suffix
  {
    DropParts(prefix, a, b, c, suffix);
  }

  /** A non-empty sequence is its first element followed by the rest. */
  lemma HeadTail<T>(s: seq<T>)
    requires s != []
    ensures [s[0]] + s[1..] == s
  {
  }

  /** A prefix one longer is the shorter prefix and the next element. */
  lemma TakeSnoc<T>(s: seq<T>, j: nat)
    requires 0 < j <= |s|
    ensures s[..j] == s[..j - 1] + [s[j - 1]]
  {
  }

  /** A slice one longer is the shorter slice and the next element. */
  lemma SliceSnoc<T>(s: seq<T>, a: nat, j: nat)
    requires 0 < j && a + j <= |s|
    ensures s[a..a + j] == s[a..a + j - 1] + [s[a + j - 1]]
  {
  }

  /** Element `j` of the slice from `a` is element `a + j` of the whole. */
  lemma SliceAt<T>(s: seq<T>, a: nat, n: nat, j: nat, k: nat)
    requires a + n <= |s| && j < n && k == a + j
    ensures s[a..a + n][j] == s[k]
  {
  }

  /** Taking one more element. */
  lemma TakeNext<T>(s: seq<T>, j: nat)
    requires j < |s|
    ensures s[..j + 1] == s[..j] + [s[j]]
  {
  }

  /** A prefix followed by the slice after it is the longer prefix. */
  lemma TakeJoin<T>(s: seq<T>, a: nat, b: nat)
    requires a <= b <= |s|
    ensures s[..a] + s[a..b] == s[..b]
  {
  }

  /** The prefix of a sequence's own length is the sequence. */
  lemma TakeAll<T>(s: seq<T>)
    ensures s[..|s|] == s
  {
  }

  /** Regrouping a concatenation of three parts and what follows them. */
  lemma Regroup3(a: seq<byte>, b: seq<byte>, c: seq<byte>, rest: seq<byte>)
    ensures a + b + c + rest == a + (b + (c + rest))
  {
  }

  /** Regrouping a concatenation of four parts and what follows them. */
  lemma Regroup4(a: seq<byte>, b: seq<byte>, c: seq<byte>, d: seq<byte>, rest: seq<byte>)
    ensures a + b + c + d + rest == a + (b + (c + (d + rest)))
  {
  }

  lemma Int32RoundTrip(x: int)
    requires IsInt32(x)
    ensures SignedValue(UInt32Of(Int32Bytes(x))) == x
  {
    UInt32RoundTrip(x % TWO_32);
  }

  // ---------------------------------------------------------------- 64-bit words

  /** The eight little-endian bytes BinaryWriter.Write(ulong) emits. */
  function UInt64Bytes(u: int): (r: seq<byte>)
    requires 0 <= u < TWO_64
    ensures |r| == 8
  {
    UInt32Bytes(u % TWO_32) + UInt32Bytes(u / TWO_32)
  }

  function UInt64Of(b: seq<byte>): (u: int)
    requires |b| == 8
    ensures 0 <= u < TWO_64
  {
    UInt32Of(b[..4]) + TWO_32 * UInt32Of(b[4..])
  }

  lemma UInt64RoundTrip(u: int)
    requires 0 <= u < TWO_64
    ensures UInt64Of(UInt64Bytes(u)) == u
  {
    var b := UInt64Bytes(u);
    assert b[..4] == UInt32Bytes(u % TWO_32) && b[4..] == UInt32Bytes(u / TWO_32);
    UInt32RoundTrip(u % TWO_32);
    UInt32RoundTrip(u / TWO_32);
  }

  function SignedValue64(u: int): (x: int)
    requires 0 <= u < TWO_64
    ensures IsInt64(x)
  {
    if u < 0x8000_0000_0000_0000 then u else u - TWO_64
  }

  /** The bytes BinaryWriter.Write(long) emits for the long whose value is x modulo 2^64. */
  function Int64Bytes(x: int): (r: seq<byte>)
    ensures |r| == 8
  {
    UInt64Bytes(x % TWO_64)
  }

  lemma Int64RoundTrip(x: int)
    requires IsInt64(x)
    ensures SignedValue64(UInt64Of(Int64Bytes(x))) == x
  {
    UInt64RoundTrip(x % TWO_64);
  }

  // ---------------------------------------------------------------- reading

  /*
   * A BinaryReader reads sequentially: each read below takes the bytes from the reader's
   * position to the end of the stream and returns what it read together with the bytes that
   * remain after it.
   */

  /** The bytes from `pos` to the end; a position past the end has nothing left to read. */
  function Remaining(data: seq<byte>, pos: nat): (r: seq<byte>)
    ensures |r| == if pos <= |data| then |data| - pos else 0
  {
    if pos <= |data| then data[pos..] else []
  }

  /**
   * BinaryReader.ReadBytes: `count` bytes, or all that remain when fewer do (a short read is
   * not an error); a negative count is.
   */
  function ReadBytes(rest: seq<byte>, count: int): (r: Result<(seq<byte>, seq<byte>), Error>)
    ensures count < 0 <==> r == Err(ArgumentOutOfRange)
    ensures r.Ok? ==> r.value.0 + r.value.1 == rest
    ensures r.Ok? ==> |r.value.0| == if count <= |rest| then count else |rest|
  {
    if count < 0 then Err(ArgumentOutOfRange)
    else if count <= |rest| then Ok((rest[..count], rest[count..]))
    else Ok((rest, []))
  }

  /** BinaryReader.ReadByte. */
  function ReadByte(rest: seq<byte>): (r: Result<(byte, seq<byte>), Error>)
    ensures r.Ok? <==> |rest| >= 1
    ensures r.Ok? ==> [r.value.0] + r.value.1 == rest
  {
    if |rest| >= 1 then Ok((rest[0], rest[1..])) else Err(EndOfStream)
  }

  /** BinaryReader.ReadUInt32. */
  function ReadUInt32(rest: seq<byte>): (r: Result<(uint32, seq<byte>), Error>)
    ensures r.Ok? <==> |rest| >= 4
    ensures r.Ok? ==> r.value.1 == rest[4..]
  {
    if |rest| >= 4 then Ok((UInt32Of(rest[..4]), rest[4..])) else Err(EndOfStream)
  }

  /** BinaryReader.ReadInt32. */
  function ReadInt32(rest: seq<byte>): (r: Result<(int, seq<byte>), Error>)
    ensures r.Ok? <==> |rest| >= 4
    ensures r.Ok? ==> IsInt32(r.value.0) && r.value.1 == rest[4..]
  {
    if |rest| >= 4 then Ok((SignedValue(UInt32Of(rest[..4])), rest[4..])) else Err(EndOfStream)
  }

  /** BinaryReader.ReadInt64. */
  function ReadInt64(rest: seq<byte>): (r: Result<(int, seq<byte>), Error>)
    ensures r.Ok? <==> |rest| >= 8
    ensures r.Ok? ==> IsInt64(r.value.0) && r.value.1 == rest[8..]
  {
    if |rest| >= 8 then Ok((SignedValue64(UInt64Of(rest[..8])), rest[8..])) else Err(EndOfStream)
  }

  /** Reading a uint back from what BinaryWriter.Write(uint) wrote. */
  lemma ReadUInt32Of(u: uint32, rest: seq<byte>)
    ensures ReadUInt32(UInt32Bytes(u) + rest).Ok?
    ensures ReadUInt32(UInt32Bytes(u) + rest).value == (u, rest)
  {
    var data := UInt32Bytes(u) + rest;
    assert data[..4] == UInt32Bytes(u) && data[4..] == rest;
    UInt32RoundTrip(u);
  }

  /** Reading an int back from what BinaryWriter.Write(int) wrote. */
  lemma ReadInt32Of(x: int, rest: seq<byte>)
    requires IsInt32(x)
    ensures ReadInt32(Int32Bytes(x) + rest).Ok?
    ensures ReadInt32(Int32Bytes(x) + rest).value == (x, rest)
  {
    var data := Int32Bytes(x) + rest;
    assert data[..4] == Int32Bytes(x) && data[4..] == rest;
    Int32RoundTrip(x);
  }

  /** Whatever int was written, reading an int consumes exactly its four bytes. */
  lemma ReadInt32Skips(x: int, rest: seq<byte>)
    ensures ReadInt32(Int32Bytes(x) + rest).Ok?
    ensures ReadInt32(Int32Bytes(x) + rest).value.1 == rest
  {
    assert (Int32Bytes(x) + rest)[4..] == rest;
  }

  /** Reading a long back from what BinaryWriter.Write(long) wrote. */
  lemma ReadInt64Of(x: int, rest: seq<byte>)
    requires IsInt64(x)
    ensures ReadInt64(Int64Bytes(x) + rest).Ok?
    ensures ReadInt64(Int64Bytes(x) + rest).value == (x, rest)
  {
    var data := Int64Bytes(x) + rest;
    assert data[..8] == Int64Bytes(x) && data[8..] == rest;
    Int64RoundTrip(x);
  }

  // ---------------------------------------------------------------- writing

  /** One byte written at `pos`: it replaces the byte there, or extends the data at its end. */
  function Poke(data: seq<byte>, pos: nat, b: byte): (r: seq<byte>)
    requires pos <= |data|
    ensures |r| == if pos < |data| then |data| else pos + 1
  {
    if pos < |data| then data[pos := b] else data + [b]
  }

  /**
   * `bs` written over `data` from `pos` on, byte after byte: the bytes there are replaced and
   * the data grows when the write runs past its end.
   */
  function Overwrite(data: seq<byte>, pos: nat, bs: seq<byte>): (r: seq<byte>)
    requires pos <= |data|
    ensures |r| == if pos + |bs| <= |data| then |data| else pos + |bs|
    decreases |bs|
  {
    if bs == [] then data else Overwrite(Poke(data, pos, bs[0]), pos + 1, bs[1..])
  }

  /** Byte by byte: the written bytes from `pos` on, the old ones elsewhere. */
  lemma {:induction false} OverwriteAt(data: seq<byte>, pos: nat, bs: seq<byte>)
    requires pos <= |data|
    ensures forall k :: 0 <= k < |Overwrite(data, pos, bs)| ==>
      Overwrite(data, pos, bs)[k] == if pos <= k < pos + |bs| then bs[k - pos] else data[k]
    decreases |bs|
  {
    if bs != [] {
      var poked := Poke(data, pos, bs[0]);
      OverwriteAt(poked, pos + 1, bs[1..]);
      forall k | 0 <= k < |Overwrite(data, pos, bs)|
        ensures Overwrite(data, pos, bs)[k] == if pos <= k < pos + |bs| then bs[k - pos] else data[k]
      {
        if pos + 1 <= k < pos + |bs| {
          assert bs[1..][k - (pos + 1)] == bs[k - pos];
        }
      }
    }
  }

  /** A write is the bytes before it, the written bytes, then whatever old bytes follow. */
  lemma OverwriteSplit(data: seq<byte>, pos: nat, bs: seq<byte>)
    requires pos <= |data|
    ensures Overwrite(data, pos, bs) == data[..pos] + bs + (if pos + |bs| <= |data| then data[pos + |bs|..] else [])
  {
    var lhs := Overwrite(data, pos, bs);
    var rhs := data[..pos] + bs + (if pos + |bs| <= |data| then data[pos + |bs|..] else []);
    OverwriteAt(data, pos, bs);
    assert |lhs| == |rhs|;
    forall k | 0 <= k < |lhs|
      ensures lhs[k] == rhs[k]
    {
      if k < pos {
        assert rhs[k] == data[..pos][k];
      } else if k < pos + |bs| {
        assert rhs[k] == bs[k - pos];
      } else {
        assert rhs[k] == data[pos + |bs|..][k - pos - |bs|];
      }
    }
  }

  /** A write from the start of the data: the written bytes, then whatever old bytes follow. */
  lemma OverwriteFromStart(data: seq<byte>, bs: seq<byte>)
    ensures Overwrite(data, 0, bs) == bs + (if |bs| <= |data| then data[|bs|..] else [])
  {
    OverwriteSplit(data, 0, bs);
    assert data[..0] == [];
  }

  /** Two consecutive writes are one write of their concatenation. */
  lemma OverwriteSequential(data: seq<byte>, pos: nat, a: seq<byte>, b: seq<byte>)
    requires pos <= |data|
    ensures pos + |a| <= |Overwrite(data, pos, a)|
    ensures Overwrite(Overwrite(data, pos, a), pos + |a|, b) == Overwrite(data, pos, a + b)
  {
    var lhs := Overwrite(Overwrite(data, pos, a), pos + |a|, b);
    var rhs := Overwrite(data, pos, a + b);
    OverwriteAt(data, pos, a);
    OverwriteAt(Overwrite(data, pos, a), pos + |a|, b);
    OverwriteAt(data, pos, a + b);
    assert |lhs| == |rhs|;
    forall k | 0 <= k < |lhs| ensures lhs[k] == rhs[k] {
      if pos + |a| <= k < pos + |a| + |b| {
        assert (a + b)[k - pos] == b[k - pos - |a|];
      } else if pos <= k < pos + |a| {
        assert (a + b)[k - pos] == a[k - pos];
      }
    }
  }

  /** A later write inside an earlier one patches the earlier bytes in place. */
  lemma OverwriteInside(data: seq<byte>, pos: nat, a: seq<byte>, k: nat, b: seq<byte>)
    requires pos <= |data| && k + |b| <= |a|
    ensures pos + k <= |Overwrite(data, pos, a)|
    ensures Overwrite(Overwrite(data, pos, a), pos + k, b) == Overwrite(data, pos, a[..k] + b + a[k + |b|..])
  {
    var lhs := Overwrite(Overwrite(data, pos, a), pos + k, b);
    var patched := a[..k] + b + a[k + |b|..];
    var rhs := Overwrite(data, pos, patched);
    OverwriteAt(data, pos, a);
    OverwriteAt(Overwrite(data, pos, a), pos + k, b);
    OverwriteAt(data, pos, patched);
    assert |patched| == |a|;
    assert |lhs| == |rhs|;
    forall m | 0 <= m < |lhs| ensures lhs[m] == rhs[m] {
      if pos <= m < pos + |a| {
        if m < pos + k {
          assert patched[m - pos] == a[..k][m - pos];
        } else if m < pos + k + |b| {
          assert patched[m - pos] == b[m - pos - k];
        } else {
          assert patched[m - pos] == a[k + |b|..][m - pos - k - |b|];
        }
      }
    }
  }

  /**
   * A seekable in-memory stream (System.IO.MemoryStream) seen through a BinaryWriter: writes
   * go to the current position, overwriting what is there and extending the stream past its
   * end. The capability flags are the ones LocresFile checks before loading or saving.
   */
  class Stream {
    var Data: seq<byte>
    var Position: nat
    const CanSeek: bool
    const CanRead: bool
    const CanWrite: bool

    ghost predicate Valid()
      reads this
    {
      Position <= |Data|
    }

    constructor (contents: seq<byte>, canSeek: bool, canRead: bool, canWrite: bool)
      ensures Valid() && Data == contents && Position == 0
      ensures CanSeek == canSeek && CanRead == canRead && CanWrite == canWrite
    {
      Data, Position := contents, 0;
      CanSeek, CanRead, CanWrite := canSeek, canRead, canWrite;
    }

    /** Stream.Write: `bs` replaces the bytes at Position, which advances past them. */
    method Write(bs: seq<byte>)
      requires Valid()
      modifies this
      ensures Valid()
      ensures Data == Overwrite(old(Data), old(Position), bs)
      ensures Position == old(Position) + |bs|
    {
      Data := Overwrite(Data, Position, bs);
      Position := Position + |bs|;
    }

    /** Setting Stream.Position within the stream. */
    method Seek(pos: nat)
      requires Valid() && pos <= |Data|
      modifies this
      ensures Valid() && Data == old(Data) && Position == pos
    {
      Position := pos;
    }
  }
}
