/**
 * The UE4 variant of CityHash 1.0.3 (LocresLib/CityHash.cs): 64-bit and 32-bit
 * non-cryptographic hashes over byte arrays, in wrapping unsigned arithmetic. The
 * process-wide `BigEndian` switch of CityHash.cs is the explicit parameter `bigEndian`.
 */
module CityHash {

  // Some primes between 2^63 and 2^64.
  const K0: bv64 := 0xc3a5c85c97cb3127
  const K1: bv64 := 0xb492b66fbe98f273
  const K2: bv64 := 0x9ae16a3b2f90404f
  const K3: bv64 := 0xc949d7c7509e6557

  // The Murmur3 constants for 32-bit hashing.
  const C1: bv32 := 0xcc9e2d51
  const C2: bv32 := 0x1b873593

  /** The multiplier of the 128-to-64-bit fold. */
  const KMul: bv64 := 0x9ddfea08eb382d69

  /** The longest byte[] .NET allocates: every length and offset fits a C# int. */
  const MaxArrayLength: int := 0x7FFF_FFC7

  /** A pair of 64-bit words (the UInt128 class, compared by value). */
  datatype UInt128 = UInt128(Low: bv64, High: bv64)


  // ---------------------------------------------------------------- byte order

  /** Byte k (0 = least significant) of a 32-bit word. */
  function ByteOf32(x: bv32, k: nat): bv32
    requires k < 4
  {
    match k
    case 0 => x & 0xff
    case 1 => (x >> 8) & 0xff
    case 2 => (x >> 16) & 0xff
    case _ => x >> 24
  }

  /** Byte k (0 = least significant) of a 64-bit word. */
  function ByteOf64(x: bv64, k: nat): bv64
    requires k < 8
  {
    match k
    case 0 => x & 0xff
    case 1 => (x >> 8) & 0xff
    case 2 => (x >> 16) & 0xff
    case 3 => (x >> 24) & 0xff
    case 4 => (x >> 32) & 0xff
    case 5 => (x >> 40) & 0xff
    case 6 => (x >> 48) & 0xff
    case _ => x >> 56
  }

  function ByteSwapUInt32(x: bv32): bv32
  {
    (x >> 24) | ((x & 0x00ff0000) >> 8) | ((x & 0x0000ff00) << 8) | (x << 24)
  }

  function ByteSwapUInt64(x: bv64): bv64
  {
    (x >> 56)
    | ((x & 0x00ff000000000000) >> 40)
    | ((x & 0x0000ff0000000000) >> 24)
    | ((x & 0x000000ff00000000) >> 8)
    | ((x & 0x00000000ff000000) << 8)
    | ((x & 0x0000000000ff0000) << 24)
    | ((x & 0x000000000000ff00) << 40)
    | (x << 56)
  }

  /** ByteSwapUInt32 moves byte k to position 3 - k. */
  lemma ByteSwapUInt32Reverses(x: bv32, k: nat)
    requires k < 4
    ensures ByteOf32(ByteSwapUInt32(x), k) == ByteOf32(x, 3 - k)
  {
    match k
    case 0 => case 1 => case 2 => case 3 =>
  }

  /** ByteSwapUInt64 moves byte k to position 7 - k. */
  lemma ByteSwapUInt64Reverses(x: bv64, k: nat)
    requires k < 8
    ensures ByteOf64(ByteSwapUInt64(x), k) == ByteOf64(x, 7 - k)
  {
    match k
    case 0 => case 1 => case 2 => case 3 => case 4 => case 5 => case 6 => case 7 =>
  }

  lemma ByteSwapUInt32Involution(x: bv32)
    ensures ByteSwapUInt32(ByteSwapUInt32(x)) == x
  {
  }

  lemma ByteSwapUInt64Involution(x: bv64)
    ensures ByteSwapUInt64(ByteSwapUInt64(x)) == x
  {
  }

  // ---------------------------------------------------------------- fetches

  /** BitConverter.ToUInt32: the four bytes at `index`, least significant first. */
  function ToUInt32(p: seq<bv8>, index: int): bv32
    requires 0 <= index && index + 4 <= |p|
  {
    (p[index] as bv32)
    | (p[index + 1] as bv32 << 8)
    | (p[index + 2] as bv32 << 16)
    | (p[index + 3] as bv32 << 24)
  }

  /** BitConverter.ToUInt64: the eight bytes at `index`, least significant first. */
  function ToUInt64(p: seq<bv8>, index: int): bv64
    requires 0 <= index && index + 8 <= |p|
  {
    (p[index] as bv64)
    | (p[index + 1] as bv64 << 8)
    | (p[index + 2] as bv64 << 16)
    | (p[index + 3] as bv64 << 24)
    | (p[index + 4] as bv64 << 32)
    | (p[index + 5] as bv64 << 40)
    | (p[index + 6] as bv64 << 48)
    | (p[index + 7] as bv64 << 56)
  }

  /** Byte k of ToUInt32 is the byte at index + k. */
  lemma ToUInt32Byte(p: seq<bv8>, index: int, k: nat)
    requires 0 <= index && index + 4 <= |p| && k < 4
    ensures ByteOf32(ToUInt32(p, index), k) == p[index + k] as bv32
  {
    var b0, b1, b2, b3 := p[index] as bv32, p[index + 1] as bv32, p[index + 2] as bv32, p[index + 3] as bv32;
    assert b0 < 256 && b1 < 256 && b2 < 256 && b3 < 256;
    match k
    case 0 => case 1 => case 2 => case 3 =>
  }

  /** Byte k of ToUInt64 is the byte at index + k. */
  lemma ToUInt64Byte(p: seq<bv8>, index: int, k: nat)
    requires 0 <= index && index + 8 <= |p| && k < 8
    ensures ByteOf64(ToUInt64(p, index), k) == p[index + k] as bv64
  {
    var b0, b1, b2, b3 := p[index] as bv64, p[index + 1] as bv64, p[index + 2] as bv64, p[index + 3] as bv64;
    var b4, b5, b6, b7 := p[index + 4] as bv64, p[index + 5] as bv64, p[index + 6] as bv64, p[index + 7] as bv64;
    assert b0 < 256 && b1 < 256 && b2 < 256 && b3 < 256 && b4 < 256 && b5 < 256 && b6 < 256 && b7 < 256;
    match k
    case 0 => case 1 => case 2 => case 3 => case 4 => case 5 => case 6 => case 7 =>
  }

  /** Fetch32: the little-endian word at `index`; in big-endian mode its bytes reversed. */
  function Fetch32(p: seq<bv8>, index: int, bigEndian: bool): (r: bv32)
    requires 0 <= index && index + 4 <= |p|
    ensures forall k | 0 <= k < 4 :: ByteOf32(r, k) == p[index + (if bigEndian then 3 - k else k)] as bv32
  {
    var x := ToUInt32(p, index);
    var r := if bigEndian then ByteSwapUInt32(x) else x;
    Fetch32Bytes(p, index, bigEndian, x, r);
    r
  }

  lemma Fetch32Bytes(p: seq<bv8>, index: int, bigEndian: bool, x: bv32, r: bv32)
    requires 0 <= index && index + 4 <= |p|
    requires x == ToUInt32(p, index) && r == if bigEndian then ByteSwapUInt32(x) else x
    ensures forall k | 0 <= k < 4 :: ByteOf32(r, k) == p[index + (if bigEndian then 3 - k else k)] as bv32
  {
    forall k | 0 <= k < 4
      ensures ByteOf32(r, k) == p[index + (if bigEndian then 3 - k else k)] as bv32
    {
      if bigEndian {
        ByteSwapUInt32Reverses(x, k);
        ToUInt32Byte(p, index, 3 - k);
      } else {
        ToUInt32Byte(p, index, k);
      }
    }
  }

  /** Fetch64: the little-endian word at `index`; in big-endian mode its bytes reversed. */
  function Fetch64(p: seq<bv8>, index: int, bigEndian: bool): (r: bv64)
    requires 0 <= index && index + 8 <= |p|
    ensures forall k | 0 <= k < 8 :: ByteOf64(r, k) == p[index + (if bigEndian then 7 - k else k)] as bv64
  {
    var x := ToUInt64(p, index);
    var r := if bigEndian then ByteSwapUInt64(x) else x;
    Fetch64Bytes(p, index, bigEndian, x, r);
    r
  }

  lemma Fetch64Bytes(p: seq<bv8>, index: int, bigEndian: bool, x: bv64, r: bv64)
    requires 0 <= index && index + 8 <= |p|
    requires x == ToUInt64(p, index) && r == if bigEndian then ByteSwapUInt64(x) else x
    ensures forall k | 0 <= k < 8 :: ByteOf64(r, k) == p[index + (if bigEndian then 7 - k else k)] as bv64
  {
    forall k | 0 <= k < 8
      ensures ByteOf64(r, k) == p[index + (if bigEndian then 7 - k else k)] as bv64
    {
      if bigEndian {
        ByteSwapUInt64Reverses(x, k);
        ToUInt64Byte(p, index, 7 - k);
      } else {
        ToUInt64Byte(p, index, k);
      }
    }
  }

  // ---------------------------------------------------------------- mixing

  /*
   * CityHash.cs passes every shift count as an int constant; here it is a bit-vector of
   * the word's width, which is what the shift operators consume.
   */

  /** Rotate32: right rotation, with a shift of 0 special-cased to avoid a 32-bit shift. */
  function Rotate32(val: bv32, shift: bv32): (r: bv32)
    requires shift < 32
    ensures shift == 0 ==> r == val
  {
    if shift == 0 then val else (val >> shift) | (val << (32 - shift))
  }

  /** Rotate: right rotation, with a shift of 0 special-cased to avoid a 64-bit shift. */
  function Rotate(val: bv64, shift: bv64): (r: bv64)
    requires shift < 64
    ensures shift == 0 ==> r == val
  {
    if shift == 0 then val else (val >> shift) | (val << (64 - shift))
  }

  /** A shift count survives the round trip through the natural numbers. */
  lemma NatRoundTrip32(s: bv32)
    ensures (s as nat) as bv32 == s
  {
  }

  lemma NatRoundTrip64(s: bv64)
    ensures (s as nat) as bv64 == s
  {
  }

  /** For every shift count below 32, Rotate32 is a right rotation. */
  lemma Rotate32RotatesRight(val: bv32, shift: bv32)
    requires shift < 32
    ensures Rotate32(val, shift) == val.RotateRight(shift as nat)
  {
    NatRoundTrip32(shift);
  }

  lemma RotateRotatesRightFrom0(val: bv64, shift: bv64)
    requires 0 <= shift < 8
    ensures Rotate(val, shift) == val.RotateRight(shift as nat)
  {
    NatRoundTrip64(shift);
  }

  lemma RotateRotatesRightFrom8(val: bv64, shift: bv64)
    requires 8 <= shift < 16
    ensures Rotate(val, shift) == val.RotateRight(shift as nat)
  {
    NatRoundTrip64(shift);
  }

  lemma RotateRotatesRightFrom16(val: bv64, shift: bv64)
    requires 16 <= shift < 24
    ensures Rotate(val, shift) == val.RotateRight(shift as nat)
  {
    NatRoundTrip64(shift);
  }

  lemma RotateRotatesRightFrom24(val: bv64, shift: bv64)
    requires 24 <= shift < 32
    ensures Rotate(val, shift) == val.RotateRight(shift as nat)
  {
    NatRoundTrip64(shift);
  }

  lemma RotateRotatesRightFrom32(val: bv64, shift: bv64)
    requires 32 <= shift < 40
    ensures Rotate(val, shift) == val.RotateRight(shift as nat)
  {
    NatRoundTrip64(shift);
  }

  lemma RotateRotatesRightFrom40(val: bv64, shift: bv64)
    requires 40 <= shift < 48
    ensures Rotate(val, shift) == val.RotateRight(shift as nat)
  {
    NatRoundTrip64(shift);
  }

  lemma RotateRotatesRightFrom48(val: bv64, shift: bv64)
    requires 48 <= shift < 56
    ensures Rotate(val, shift) == val.RotateRight(shift as nat)
  {
    NatRoundTrip64(shift);
  }

  lemma RotateRotatesRightFrom56(val: bv64, shift: bv64)
    requires 56 <= shift < 64
    ensures Rotate(val, shift) == val.RotateRight(shift as nat)
  {
    NatRoundTrip64(shift);
  }

  /**
   * For every shift count below 64, Rotate is a right rotation; proved eight shift counts
   * at a time, which keeps each bit-vector obligation small.
   */
  lemma RotateRotatesRight(val: bv64, shift: bv64)
    requires shift < 64
    ensures Rotate(val, shift) == val.RotateRight(shift as nat)
  {
    if shift < 8 {
      RotateRotatesRightFrom0(val, shift);
    } else if shift < 16 {
      RotateRotatesRightFrom8(val, shift);
    } else if shift < 24 {
      RotateRotatesRightFrom16(val, shift);
    } else if shift < 32 {
      RotateRotatesRightFrom24(val, shift);
    } else if shift < 40 {
      RotateRotatesRightFrom32(val, shift);
    } else if shift < 48 {
      RotateRotatesRightFrom40(val, shift);
    } else if shift < 56 {
      RotateRotatesRightFrom48(val, shift);
    } else {
      RotateRotatesRightFrom56(val, shift);
    }
  }

  /** Swap: the two values exchanged (the C# code swaps two ref parameters). */
  method Swap<T>(a: T, b: T) returns (a': T, b': T)
    ensures a' == b && b' == a
  {
    var temp := a;
    a' := b;
    b' := temp;
  }

  /** Permute3: two swaps that rotate (a, b, c) to (c, a, b). */
  method Permute3<T>(a: T, b: T, c: T) returns (a': T, b': T, c': T)
    ensures a' == c && b' == a && c' == b
  {
    a', b' := Swap(a, b);
    a', c' := Swap(a', c);
  }

  /** The Murmur3 finalizer: a 32-bit to 32-bit mix. */
  function Fmix(h: bv32): bv32
  {
    var h := h ^ (h >> 16);
    var h := h * 0x85ebca6b;
    var h := h ^ (h >> 13);
    var h := h * 0xc2b2ae35;
    h ^ (h >> 16)
  }

  /** Mur: the Murmur3 step that combines a word into a running 32-bit hash. */
  function Mur(a: bv32, h: bv32): bv32
  {
    var a := a * C1;
    var a := Rotate32(a, 17);
    var a := a * C2;
    var h := h ^ a;
    var h := Rotate32(h, 19);
    h * 5 + 0xe6546b64
  }

  function ShiftMix(val: bv64): bv64
  {
    val ^ (val >> 47)
  }

  /**
   * The Murmur-inspired fold of two 64-bit words with a multiplier, which Hash128To64 and
   * both HashLen16 overloads of CityHash.cs spell out separately.
   */
  function Fold128(low: bv64, high: bv64, mul: bv64): bv64
  {
    var a := (low ^ high) * mul;
    var a := a ^ (a >> 47);
    var b := (high ^ a) * mul;
    var b := b ^ (b >> 47);
    b * mul
  }

  /** Hash128To64: the fold of 128 bits to 64 with the multiplier KMul. */
  function Hash128To64(x: UInt128): bv64
  {
    Fold128(x.Low, x.High, KMul)
  }

  /** The two-argument HashLen16 of CityHash.cs. */
  function HashLen16(u: bv64, v: bv64): bv64
  {
    Hash128To64(UInt128(u, v))
  }

  /** The three-argument HashLen16 of CityHash.cs: the same fold with a given multiplier. */
  function HashLen16WithMul(u: bv64, v: bv64, mul: bv64): bv64
  {
    Fold128(u, v, mul)
  }

  /** The two HashLen16 overloads agree when the multiplier is KMul. */
  lemma HashLen16IsWithKMul(u: bv64, v: bv64)
    ensures HashLen16(u, v) == HashLen16WithMul(u, v, KMul)
  {
  }

  // ---------------------------------------------------------------- CityHash32

  /** The C# cast (uint)(sbyte)b: the byte read as signed and widened. */
  function SignExtend(b: bv8): (r: bv32)
    ensures r & 0xff == b as bv32
    ensures r >> 8 == if b < 0x80 then 0 else 0xFF_FFFF
  {
    if b < 0x80 then b as bv32 else b as bv32 | 0xFFFF_FF00
  }

  /** One iteration of the Hash32Len0To4 loop: the new (b, c). */
  function Len0To4Step(b: bv32, c: bv32, byte: bv8): (bv32, bv32)
  {
    var b := b * C1 + SignExtend(byte);
    (b, c ^ b)
  }

  /** (b, c) after the Hash32Len0To4 loop has consumed the first n bytes. */
  function Len0To4Mix(s: seq<bv8>, n: nat): (bv32, bv32)
    requires n <= |s|
  {
    if n == 0 then (0, 9)
    else
      var bc := Len0To4Mix(s, n - 1);
      Len0To4Step(bc.0, bc.1, s[n - 1])
  }

  function Hash32Len0To4Of(s: seq<bv8>): bv32
    requires |s| <= 4
  {
    var bc := Len0To4Mix(s, |s|);
    Fmix(Mur(bc.0, Mur(|s| as bv32, bc.1)))
  }

  /** Hash32Len0To4: a loop over the (at most four) bytes, each sign-extended. */
  method Hash32Len0To4(s: seq<bv8>) returns (r: bv32)
    requires |s| <= 4
    ensures r == Hash32Len0To4Of(s)
  {
    var len := |s| as bv32;
    var b: bv32, c: bv32 := 0, 9;
    var i := 0;
    while i < |s|
      invariant 0 <= i <= |s|
      invariant (b, c) == Len0To4Mix(s, i)
    {
      b, c := Len0To4Step(b, c, s[i]).0, Len0To4Step(b, c, s[i]).1;
      i := i + 1;
    }
    r := Fmix(Mur(b, Mur(len, c)));
  }

  function Hash32Len5To12(s: seq<bv8>, bigEndian: bool): bv32
    requires 5 <= |s| <= 12
  {
    var len := |s| as bv32;
    var a, b, c, d := len, len * 5, 9, len * 5;
    var a := a + Fetch32(s, 0, bigEndian);
    var b := b + Fetch32(s, |s| - 4, bigEndian);
    // ((len >> 1) & 4): 4 when bit 2 of len / 2 is set, else 0
    var c := c + Fetch32(s, if (|s| / 2) % 8 >= 4 then 4 else 0, bigEndian);
    Fmix(Mur(c, Mur(b, Mur(a, d))))
  }

  function Hash32Len13To24(s: seq<bv8>, bigEndian: bool): bv32
    requires 13 <= |s| <= 24
  {
    var a := Fetch32(s, |s| / 2 - 4, bigEndian);
    var b := Fetch32(s, 4, bigEndian);
    var c := Fetch32(s, |s| - 8, bigEndian);
    var d := Fetch32(s, |s| / 2, bigEndian);
    var e := Fetch32(s, 0, bigEndian);
    var f := Fetch32(s, |s| - 4, bigEndian);
    var h := |s| as bv32;
    Fmix(Mur(f, Mur(e, Mur(d, Mur(c, Mur(b, Mur(a, h)))))))
  }

  /** A word read at `index` and scrambled with the Murmur3 constants. */
  function Scramble32(s: seq<bv8>, index: int, bigEndian: bool): bv32
    requires 0 <= index && index + 4 <= |s|
  {
    Rotate32(Fetch32(s, index, bigEndian) * C1, 17) * C2
  }

  /** The (h, g, f) that CityHash32 derives from the last 20 bytes before its loop. */
  function Tail32(s: seq<bv8>, bigEndian: bool): (bv32, bv32, bv32)
    requires 24 < |s| <= MaxArrayLength
  {
    var len := |s|;
    var h, g := len as bv32, C1 * (len as bv32);
    var f := g;
    var a0 := Scramble32(s, len - 4, bigEndian);
    var a1 := Scramble32(s, len - 8, bigEndian);
    var a2 := Scramble32(s, len - 16, bigEndian);
    var a3 := Scramble32(s, len - 12, bigEndian);
    var a4 := Scramble32(s, len - 20, bigEndian);
    var h := Rotate32(h ^ a0, 19) * 5 + 0xe6546b64;
    var h := Rotate32(h ^ a2, 19) * 5 + 0xe6546b64;
    var g := Rotate32(g ^ a1, 19) * 5 + 0xe6546b64;
    var g := Rotate32(g ^ a3, 19) * 5 + 0xe6546b64;
    var f := Rotate32(f + a4, 19) * 5 + 0xe6546b64;
    (h, g, f)
  }

  /** The body of CityHash32's loop on the 20 bytes at `offset`, up to its Permute3. */
  function Round32(s: seq<bv8>, offset: int, h: bv32, g: bv32, f: bv32, bigEndian: bool): (bv32, bv32, bv32)
    requires 0 <= offset && offset + 20 <= |s|
  {
    var a0 := Scramble32(s, offset, bigEndian);
    var a1 := Fetch32(s, offset + 4, bigEndian);
    var a2 := Scramble32(s, offset + 8, bigEndian);
    var a3 := Scramble32(s, offset + 12, bigEndian);
    var a4 := Fetch32(s, offset + 16, bigEndian);
    var h := Rotate32(h ^ a0, 18) * 5 + 0xe6546b64;
    var f := Rotate32(f + a1, 19) * C1;
    var g := Rotate32(g + a2, 18) * 5 + 0xe6546b64;
    var h := Rotate32(h ^ (a3 + a1), 19) * 5 + 0xe6546b64;
    var g := ByteSwapUInt32(g ^ a4) * 5;
    var h := ByteSwapUInt32(h + a4 * 5);
    var f := f + a0;
    (h, g, f)
  }

  /**
   * (h, g, f) after the first `iters` loop iterations, the i-th on the 20 bytes at 20 * i,
   * each ending in Permute3(f, h, g): f takes g, h takes f, g takes h.
   */
  function Rounds32(s: seq<bv8>, iters: nat, h: bv32, g: bv32, f: bv32, bigEndian: bool): (bv32, bv32, bv32)
    requires 20 * iters <= |s|
  {
    if iters == 0 then (h, g, f)
    else
      var p := Rounds32(s, iters - 1, h, g, f, bigEndian);
      var r := Round32(s, 20 * (iters - 1), p.0, p.1, p.2, bigEndian);
      (r.2, r.0, r.1)
  }

  /** The final mix of CityHash32 after its loop. */
  function Finish32(h: bv32, g: bv32, f: bv32): bv32
  {
    var g := Rotate32(g, 11) * C1;
    var g := Rotate32(g, 17) * C1;
    var f := Rotate32(f, 11) * C1;
    var f := Rotate32(f, 17) * C1;
    var h := Rotate32(h + g, 19);
    var h := h * 5 + 0xe6546b64;
    var h := Rotate32(h, 17) * C1;
    var h := Rotate32(h + f, 19);
    var h := h * 5 + 0xe6546b64;
    Rotate32(h, 17) * C1
  }

  /** The number of 20-byte iterations CityHash32 runs on an input longer than 24 bytes. */
  function Iterations32(len: int): (n: nat)
    requires len > 24
    ensures n >= 1 && 20 * n < len
  {
    (len - 1) / 20
  }

  /** CityHash32 of an input longer than 24 bytes. */
  function Hash32LongOf(s: seq<bv8>, bigEndian: bool): bv32
    requires 24 < |s| <= MaxArrayLength
  {
    var t := Tail32(s, bigEndian);
    var r := Rounds32(s, Iterations32(|s|), t.0, t.1, t.2, bigEndian);
    Finish32(r.0, r.1, r.2)
  }

  /** CityHash32 as a value. */
  function CityHash32Of(s: seq<bv8>, bigEndian: bool): bv32
    requires |s| <= MaxArrayLength
  {
    if |s| <= 4 then Hash32Len0To4Of(s)
    else if |s| <= 12 then Hash32Len5To12(s, bigEndian)
    else if |s| <= 24 then Hash32Len13To24(s, bigEndian)
    else Hash32LongOf(s, bigEndian)
  }

  /**
   * CityHash32(byte[]): a path per length up to 24 bytes; longer inputs run (len - 1) / 20
   * rounds over 20-byte blocks from offset 0 (Rounds32).
   */
  method CityHash32(s: seq<bv8>, bigEndian: bool) returns (r: bv32)
    requires |s| <= MaxArrayLength
    ensures r == CityHash32Of(s, bigEndian)
    ensures |s| <= 4 ==> r == Hash32Len0To4Of(s)
    ensures 4 < |s| <= 12 ==> r == Hash32Len5To12(s, bigEndian)
    ensures 12 < |s| <= 24 ==> r == Hash32Len13To24(s, bigEndian)
  {
    var len := |s|;
    if len <= 24 {
      if len <= 12 {
        if len <= 4 {
          r := Hash32Len0To4(s);
        } else {
          r := Hash32Len5To12(s, bigEndian);
        }
      } else {
        r := Hash32Len13To24(s, bigEndian);
      }
    } else {
      r := Hash32LongOf(s, bigEndian);
    }
  }

  // ---------------------------------------------------------------- CityHash64

  /** K2 plus twice the length, the length doubled in 32-bit arithmetic. */
  function LengthMul(len: int): bv64
    requires 0 <= len < 0x1_0000_0000
  {
    K2 + ((len as bv32) * 2) as bv64
  }

  /** HashLen0To16 on the bytes from `offset`; CityHash64 calls it with offset 0. */
  function HashLen0To16(s: seq<bv8>, offset: int, bigEndian: bool): bv64
    requires 0 <= offset <= |s| <= MaxArrayLength
  {
    var len := |s| - offset;
    if len >= 8 then
      var mul := LengthMul(len);
      var a := Fetch64(s, offset, bigEndian) + K2;
      var b := Fetch64(s, offset + len - 8, bigEndian);
      var c := Rotate(b, 37) * mul + a;
      var d := (Rotate(a, 25) + b) * mul;
      HashLen16WithMul(c, d, mul)
    else if len >= 4 then
      var mul := LengthMul(len);
      var a := Fetch32(s, offset, bigEndian) as bv64;
      // the UE4 variant passes `mul` here
      HashLen16WithMul(len as bv64 + (a << 3), Fetch32(s, offset + len - 4, bigEndian) as bv64, mul)
    else if len > 0 then
      var a, b, c := s[offset], s[offset + len / 2], s[offset + (len - 1)];
      var y: bv32 := a as bv32 + ((b as bv32) << 8);
      var z: bv32 := len as bv32 + ((c as bv32) << 2);
      // the UE4 variant multiplies z by K0 where CityHash 1.0.3 uses K3
      ShiftMix(((y as bv64) * K2) ^ ((z as bv64) * K0)) * K2
    else
      K2
  }

  function HashLen17To32(s: seq<bv8>, bigEndian: bool): bv64
    requires 16 < |s| <= 32
  {
    var len := |s|;
    var mul := LengthMul(len);
    var a := Fetch64(s, 0, bigEndian) * K1;
    var b := Fetch64(s, 8, bigEndian);
    var c := Fetch64(s, len - 8, bigEndian) * mul;
    var d := Fetch64(s, len - 16, bigEndian) * K2;
    HashLen16WithMul(Rotate(a + b, 43) + Rotate(c, 30) + d, a + Rotate(b + K2, 18) + c, mul)
  }

  /** WeakHashLen32WithSeeds over six words: a 16-byte hash of 48 bytes. */
  function WeakHashLen32WithSeeds(w: bv64, x: bv64, y: bv64, z: bv64, a: bv64, b: bv64): UInt128
  {
    var a := a + w;
    var b := Rotate(b + a + z, 21);
    var c := a;
    var a := a + x;
    var a := a + y;
    var b := b + Rotate(a, 44);
    UInt128(a + z, b + c)
  }

  /** WeakHashLen32WithSeeds over the 32 bytes at `offset` and two seeds. */
  function WeakHashLen32WithSeedsAt(s: seq<bv8>, offset: int, a: bv64, b: bv64, bigEndian: bool): UInt128
    requires 0 <= offset && offset + 32 <= |s|
  {
    WeakHashLen32WithSeeds(Fetch64(s, offset, bigEndian), Fetch64(s, offset + 8, bigEndian),
      Fetch64(s, offset + 16, bigEndian), Fetch64(s, offset + 24, bigEndian), a, b)
  }

  function HashLen33To64(s: seq<bv8>, bigEndian: bool): bv64
    requires 32 < |s| <= 64
  {
    var len := |s|;
    var mul := LengthMul(len);
    var a := Fetch64(s, 0, bigEndian) * K2;
    var b := Fetch64(s, 8, bigEndian);
    var c := Fetch64(s, len - 24, bigEndian);
    var d := Fetch64(s, len - 32, bigEndian);
    var e := Fetch64(s, 16, bigEndian) * K2;
    var f := Fetch64(s, 24, bigEndian) * 9;
    var g := Fetch64(s, len - 8, bigEndian);
    var h := Fetch64(s, len - 16, bigEndian) * mul;
    var u := Rotate(a + g, 43) + (Rotate(b, 30) + c) * 9;
    var v := ((a + g) ^ d) + f + 1;
    var w := ByteSwapUInt64((u + v) * mul) + h;
    var x := Rotate(e + f, 42) + c;
    var y := (ByteSwapUInt64((v + w) * mul) + g) * mul;
    var z := e + f + c;
    var a := ByteSwapUInt64((x + z) * mul + y) + b;
    var b := ShiftMix((z + a) * mul + d + h) * mul;
    b + x
  }

  /** The 56 bytes of state CityHash64 keeps while it loops over 64-byte chunks. */
  datatype LongState = LongState(x: bv64, y: bv64, z: bv64, v: UInt128, w: UInt128)

  /** The state CityHash64 derives from the last 64 bytes before its loop. */
  function LongInit(s: seq<bv8>, bigEndian: bool): LongState
    requires 64 < |s| <= MaxArrayLength
  {
    var len := |s|;
    var x := Fetch64(s, len - 40, bigEndian);
    var y := Fetch64(s, len - 16, bigEndian) + Fetch64(s, len - 56, bigEndian);
    var z := HashLen16(Fetch64(s, len - 48, bigEndian) + len as bv64, Fetch64(s, len - 24, bigEndian));
    var v := WeakHashLen32WithSeedsAt(s, len - 64, len as bv64, z, bigEndian);
    var w := WeakHashLen32WithSeedsAt(s, len - 32, y + K1, x, bigEndian);
    var x := x * K1 + Fetch64(s, 0, bigEndian);
    LongState(x, y, z, v, w)
  }

  /** The body of CityHash64's loop on the 64 bytes at `offset`, up to its Swap. */
  function Chunk64(s: seq<bv8>, offset: int, st: LongState, bigEndian: bool): LongState
    requires 0 <= offset && offset + 64 <= |s|
  {
    var x := Rotate(st.x + st.y + st.v.Low + Fetch64(s, offset + 8, bigEndian), 37) * K1;
    var y := Rotate(st.y + st.v.High + Fetch64(s, offset + 48, bigEndian), 42) * K1;
    var x := x ^ st.w.High;
    var y := y + st.v.Low + Fetch64(s, offset + 40, bigEndian);
    var z := Rotate(st.z + st.w.Low, 33) * K1;
    var v := WeakHashLen32WithSeedsAt(s, offset, st.v.High * K1, x + st.w.Low, bigEndian);
    var w := WeakHashLen32WithSeedsAt(s, offset + 32, z + st.w.High, y + Fetch64(s, offset + 16, bigEndian), bigEndian);
    LongState(x, y, z, v, w)
  }

  /** The state after `count` loop iterations from `offset`, each ending in Swap(z, x). */
  function Chunks64(s: seq<bv8>, offset: int, count: nat, st: LongState, bigEndian: bool): LongState
    requires 0 <= offset && offset + 64 * count <= |s|
    decreases count
  {
    if count == 0 then st
    else
      var r := Chunk64(s, offset, st, bigEndian);
      Chunks64(s, offset + 64, count - 1, r.(x := r.z, z := r.x), bigEndian)
  }

  /** The final fold of CityHash64's state after its loop. */
  function LongFinish(st: LongState): bv64
  {
    HashLen16(HashLen16(st.v.Low, st.w.Low) + ShiftMix(st.y) * K1 + st.z, HashLen16(st.v.High, st.w.High) + st.x)
  }

  /**
   * The number of 64-byte iterations CityHash64 runs on an input longer than 64 bytes:
   * (len - 1) & ~63, the length less one rounded down to a multiple of 64, over 64.
   */
  function Iterations64(len: int): (n: nat)
    requires len > 64
    ensures n >= 1 && 64 * n < len
  {
    (len - 1) / 64
  }

  /** CityHash64 as a value. */
  function CityHash64Of(s: seq<bv8>, bigEndian: bool): bv64
    requires |s| <= MaxArrayLength
  {
    if |s| <= 16 then HashLen0To16(s, 0, bigEndian)
    else if |s| <= 32 then HashLen17To32(s, bigEndian)
    else if |s| <= 64 then HashLen33To64(s, bigEndian)
    else LongFinish(Chunks64(s, 0, Iterations64(|s|), LongInit(s, bigEndian), bigEndian))
  }

  /** The hash of no bytes is K2. */
  lemma CityHash64Empty(bigEndian: bool)
    ensures CityHash64Of([], bigEndian) == K2
  {
  }

  /** CityHash64(byte[]): a path per length up to 64 bytes, the loop beyond. */
  method CityHash64(s: seq<bv8>, bigEndian: bool) returns (h: bv64)
    requires |s| <= MaxArrayLength
    ensures h == CityHash64Of(s, bigEndian)
    ensures |s| <= 16 ==> h == HashLen0To16(s, 0, bigEndian)
    ensures 16 < |s| <= 32 ==> h == HashLen17To32(s, bigEndian)
    ensures 32 < |s| <= 64 ==> h == HashLen33To64(s, bigEndian)
  {
    var len := |s|;
    if len <= 32 {
      if len <= 16 {
        return HashLen0To16(s, 0, bigEndian);
      }
      return HashLen17To32(s, bigEndian);
    }
    if len <= 64 {
      return HashLen33To64(s, bigEndian);
    }
    h := LongFinish(Chunks64(s, 0, Iterations64(len), LongInit(s, bigEndian), bigEndian));
  }

  /** The fold CityHash64WithSeeds applies to the unseeded hash. */
  function SeedFold(hash: bv64, seed0: bv64, seed1: bv64): bv64
  {
    HashLen16(hash - seed0, seed1)
  }

  /** CityHash64WithSeeds: the hash less the first seed, folded with the second. */
  method CityHash64WithSeeds(s: seq<bv8>, seed0: bv64, seed1: bv64, bigEndian: bool) returns (h: bv64)
    requires |s| <= MaxArrayLength
    ensures h == SeedFold(CityHash64Of(s, bigEndian), seed0, seed1)
  {
    var hash := CityHash64(s, bigEndian);
    h := SeedFold(hash, seed0, seed1);
  }

  /** CityHash64WithSeed: CityHash64WithSeeds with K2 as the first seed. */
  method CityHash64WithSeed(s: seq<bv8>, seed: bv64, bigEndian: bool) returns (h: bv64)
    requires |s| <= MaxArrayLength
    ensures h == SeedFold(CityHash64Of(s, bigEndian), K2, seed)
  {
    h := CityHash64WithSeeds(s, K2, seed, bigEndian);
  }
}
