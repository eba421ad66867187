/**
 * The Unreal string: a signed little-endian int32 length followed by the text and one
 * terminating NUL. A positive length counts single-byte (ASCII) characters, a negative one
 * counts UTF-16LE code units.
 */
module UnrealString {
  import opened Wrappers
  import opened Binary

  /** A UTF-16 code unit: a C# char. */
  type CodeUnit = x: int | 0 <= x < 0x1_0000

  /** A C# string: a sequence of UTF-16 code units. */
  type Text = seq<CodeUnit>

  const NUL: CodeUnit := 0
  const QUESTION_MARK: CodeUnit := 0x3F
  const REPLACEMENT_CHARACTER: CodeUnit := 0xFFFD

  /** The longest string .NET can allocate. */
  const MaxLength: int := 0x3FFF_FFDF

  predicate EndsWithNul(s: Text) { |s| > 0 && s[|s| - 1] == NUL }

  /** IsAsciiString: no code unit is above 127. */
  function IsAsciiString(value: Text): (r: bool)
    ensures r <==> forall i :: 0 <= i < |value| ==> value[i] <= 127
  {
    if value == [] then true else value[0] <= 127 && IsAsciiString(value[1..])
  }

  // ---------------------------------------------------------------- System.Text.Encoding

  /** Encoding.ASCII.GetBytes on text that is all ASCII: one byte per code unit. */
  function AsciiBytes(s: Text): (r: seq<byte>)
    requires IsAsciiString(s)
    ensures |r| == |s|
  {
    if s == [] then [] else [s[0] as byte] + AsciiBytes(s[1..])
  }

  /** Encoding.Unicode.GetBytes: each code unit as two little-endian bytes. */
  function Utf16Bytes(s: Text): (r: seq<byte>)
    ensures |r| == 2 * |s|
  {
    if s == [] then [] else [s[0] % 256, s[0] / 256] + Utf16Bytes(s[1..])
  }

  lemma {:induction false} Utf16BytesAppend(a: Text, b: Text)
    ensures Utf16Bytes(a + b) == Utf16Bytes(a) + Utf16Bytes(b)
  {
    if a != [] {
      assert (a + b)[1..] == a[1..] + b;
      Utf16BytesAppend(a[1..], b);
    } else {
      assert a + b == b;
    }
  }

  /** Encoding.ASCII.GetString: bytes above 127 decode to '?'. */
  function AsciiString(b: seq<byte>): (r: Text)
    ensures |r| == |b|
  {
    if b == [] then [] else [if b[0] <= 127 then b[0] as CodeUnit else QUESTION_MARK] + AsciiString(b[1..])
  }

  /** Encoding.Unicode.GetString: pairs of little-endian bytes; a lone trailing byte decodes to U+FFFD. */
  function Utf16String(b: seq<byte>): (r: Text)
    ensures |r| == (|b| + 1) / 2
  {
    if |b| == 0 then []
    else if |b| == 1 then [REPLACEMENT_CHARACTER]
    else [(b[0] as int + 256 * (b[1] as int)) as CodeUnit] + Utf16String(b[2..])
  }

  lemma {:induction false} AsciiRoundTrip(s: Text)
    requires IsAsciiString(s)
    ensures AsciiString(AsciiBytes(s)) == s
  {
    if s != [] {
      var b := AsciiBytes(s);
      assert b[1..] == AsciiBytes(s[1..]);
      AsciiRoundTrip(s[1..]);
    }
  }

  lemma AsciiConcat(a: Text, b: Text)
    requires IsAsciiString(a) && IsAsciiString(b)
    ensures IsAsciiString(a + b)
  {
  }

  lemma {:induction false} AsciiBytesAppend(a: Text, b: Text)
    requires IsAsciiString(a) && IsAsciiString(b) && IsAsciiString(a + b)
    ensures AsciiBytes(a + b) == AsciiBytes(a) + AsciiBytes(b)
  {
    if a != [] {
      assert (a + b)[1..] == a[1..] + b;
      AsciiBytesAppend(a[1..], b);
    } else {
      assert a + b == b;
    }
  }

  lemma AsciiTerminated(value: Text)
    ensures IsAsciiString(value + [NUL]) == IsAsciiString(value)
  {
    var terminated := value + [NUL];
    assert forall i :: 0 <= i < |value| ==> terminated[i] == value[i];
  }

  lemma {:induction false} Utf16RoundTrip(s: Text)
    ensures Utf16String(Utf16Bytes(s)) == s
  {
    if s != [] {
      var b := Utf16Bytes(s);
      assert b[2..] == Utf16Bytes(s[1..]);
      Utf16RoundTrip(s[1..]);
      assert b[0] as int + 256 * (b[1] as int) == s[0];
    }
  }

  /** String.TrimEnd('\0'): the longest prefix that does not end in NUL. */
  function TrimEndNul(s: Text): (r: Text)
    ensures |r| <= |s| && r == s[..|r|]
    ensures !EndsWithNul(r)
    ensures forall i :: |r| <= i < |s| ==> s[i] == NUL
  {
    if EndsWithNul(s) then TrimEndNul(s[..|s| - 1]) else s
  }

  // ---------------------------------------------------------------- writing

  /** The bytes WriteUnrealString emits for `value`. */
  function UnrealStringBytes(value: Text, forceUnicode: bool): seq<byte>
  {
    var terminated := value + [NUL];
    if !forceUnicode && IsAsciiString(terminated) then
      Int32Bytes(|terminated|) + AsciiBytes(terminated)
    else
      Int32Bytes(|terminated| * -1) + Utf16Bytes(terminated)
  }

  /** BinaryWriterExtensions.WriteUnrealString: the length prefix, then the terminated text. */
  method WriteUnrealString(writer: Stream, value: Text, forceUnicode: bool := false)
    requires writer.Valid() && |value| < MaxLength
    modifies writer
    ensures writer.Valid()
    ensures writer.Data == Overwrite(old(writer.Data), old(writer.Position), UnrealStringBytes(value, forceUnicode))
    ensures writer.Position == old(writer.Position) + |UnrealStringBytes(value, forceUnicode)|
  {
    ghost var data0, pos0 := writer.Data, writer.Position;
    var terminated := value + [NUL];
    var prefix, data;
    if !forceUnicode && IsAsciiString(terminated) {
      data := AsciiBytes(terminated);
      prefix := Int32Bytes(|data|);
    } else {
      data := Utf16Bytes(terminated);
      prefix := Int32Bytes(|terminated| * -1);
    }
    writer.Write(prefix);
    writer.Write(data);
    OverwriteSequential(data0, pos0, prefix, data);
  }

  lemma AsciiBytesNul()
    ensures IsAsciiString([NUL]) && AsciiBytes([NUL]) == [0]
  {
    assert [NUL][1..] == [];
  }

  lemma Utf16BytesNul()
    ensures Utf16Bytes([NUL]) == [0, 0]
  {
    assert [NUL][1..] == [];
  }

  /** An ASCII value (unless forced wide) is written as the int32 length+1, its bytes and a 0. */
  lemma NarrowLayout(value: Text)
    requires |value| < MaxLength && IsAsciiString(value)
    ensures UnrealStringBytes(value, false) == Int32Bytes(|value| + 1) + (AsciiBytes(value) + [0])
  {
    var terminated := value + [NUL];
    AsciiTerminated(value);
    AsciiBytesNul();
    AsciiBytesAppend(value, [NUL]);
    assert |terminated| == |value| + 1;
  }

  /** Any other value is written as the int32 -(length+1), its UTF-16LE units and 00 00. */
  lemma WideLayout(value: Text, forceUnicode: bool)
    requires |value| < MaxLength && (forceUnicode || !IsAsciiString(value))
    ensures UnrealStringBytes(value, forceUnicode) == Int32Bytes(-(|value| + 1)) + (Utf16Bytes(value) + [0, 0])
  {
    var terminated := value + [NUL];
    AsciiTerminated(value);
    assert !(!forceUnicode && IsAsciiString(terminated));
    var head, body := Int32Bytes(|terminated| * -1), Utf16Bytes(terminated);
    assert UnrealStringBytes(value, forceUnicode) == head + body;
    Utf16BytesAppend(value, [NUL]);
    Utf16BytesNul();
    SameInt32Bytes(|terminated| * -1, -(|value| + 1));
    JoinEqual(head, Int32Bytes(-(|value| + 1)), body, Utf16Bytes(value) + [0, 0]);
  }

  /** The empty string is written as 01 00 00 00 00. */
  lemma EmptyStringBytes()
    ensures UnrealStringBytes([], false) == [0x01, 0x00, 0x00, 0x00, 0x00]
  {
    assert IsAsciiString([NUL]);
  }

  const Unicode: Text := [0xC720, 0xB2C8, 0xCF54, 0xB4DC]   // "유니코드"
  const Ascii: Text := [0x41, 0x73, 0x43, 0x69, 0x49]       // "AsCiI"

  /** The writer's test vector: "유니코드" takes the UTF-16 path with length -5. */
  lemma UnicodeStringBytes()
    ensures UnrealStringBytes(Unicode, false)
         == [0xFB, 0xFF, 0xFF, 0xFF, 0x20, 0xC7, 0xC8, 0xB2, 0x54, 0xCF, 0xDC, 0xB4, 0x00, 0x00]
  {
    var terminated := Unicode + [NUL];
    assert terminated == [0xC720, 0xB2C8, 0xCF54, 0xB4DC, NUL];
    assert !IsAsciiString(terminated) by { assert terminated[0] > 127; }
    assert Int32Bytes(-5) == [0xFB, 0xFF, 0xFF, 0xFF];
    assert Utf16Bytes([NUL]) == [0x00, 0x00];
    assert Utf16Bytes([0xB4DC, NUL]) == [0xDC, 0xB4, 0x00, 0x00];
    assert Utf16Bytes([0xCF54, 0xB4DC, NUL]) == [0x54, 0xCF, 0xDC, 0xB4, 0x00, 0x00];
    assert Utf16Bytes([0xB2C8, 0xCF54, 0xB4DC, NUL]) == [0xC8, 0xB2, 0x54, 0xCF, 0xDC, 0xB4, 0x00, 0x00];
    assert Utf16Bytes(terminated) == [0x20, 0xC7, 0xC8, 0xB2, 0x54, 0xCF, 0xDC, 0xB4, 0x00, 0x00];
  }

  // ---------------------------------------------------------------- reading

  /**
   * BinaryReaderExtensions.ReadUnrealString: the text and the bytes left after it. The byte
   * count of the UTF-16 path is `length * -2` in unchecked int arithmetic, and a short read
   * at the end of the stream decodes whatever bytes remain.
   */
  function ReadUnrealString(rest: seq<byte>): (r: Result<(Text, seq<byte>), Error>)
    ensures r.Ok? ==> !EndsWithNul(r.value.0) && |r.value.1| + 4 <= |rest|
  {
    var header :- ReadInt32(rest);
    var length := header.0;
    if length > 0 then
      var bytes :- ReadBytes(header.1, length);
      Ok((TrimEndNul(AsciiString(bytes.0)), bytes.1))
    else if length < 0 then
      var bytes :- ReadBytes(header.1, WrapInt32(length * -2));
      Ok((TrimEndNul(Utf16String(bytes.0)), bytes.1))
    else
      Ok(([], header.1))
  }

  /** `r` is a successful read of `text` that leaves `rest` unread. */
  predicate ReadsAs(r: Result<(Text, seq<byte>), Error>, text: Text, rest: seq<byte>) {
    r.Ok? && r.value.0 == text && r.value.1 == rest
  }

  /** A positive length L reads the next L bytes as single-byte characters. */
  lemma ReadNarrow(body: seq<byte>, rest: seq<byte>)
    requires 0 < |body| < 0x8000_0000
    ensures ReadsAs(ReadUnrealString(Int32Bytes(|body|) + (body + rest)), TrimEndNul(AsciiString(body)), rest)
  {
    ReadInt32Of(|body|, body + rest);
    assert (body + rest)[..|body|] == body && (body + rest)[|body|..] == rest;
  }

  /** A negative length -count, for count below 2^30, reads the next 2 * count bytes as UTF-16LE. */
  lemma ReadWide(count: int, body: seq<byte>, rest: seq<byte>)
    requires 0 < count < 0x4000_0000 && |body| == 2 * count
    ensures ReadsAs(ReadUnrealString(Int32Bytes(-count) + (body + rest)), TrimEndNul(Utf16String(body)), rest)
  {
    ReadInt32Of(-count, body + rest);
    assert WrapInt32(-count * -2) == 2 * count;
    assert (body + rest)[..|body|] == body && (body + rest)[|body|..] == rest;
  }

  /** The length -2^31 makes the unchecked byte count wrap to 0: the empty string. */
  lemma ReadWideWrapsToEmpty(rest: seq<byte>)
    ensures ReadsAs(ReadUnrealString(Int32Bytes(-0x8000_0000) + rest), [], rest)
  {
    ReadInt32Of(-0x8000_0000, rest);
    assert WrapInt32(-0x8000_0000 * -2) == 0;
    assert rest[..0] == [] && rest[0..] == rest;
    assert TrimEndNul(Utf16String([])) == [];
  }

  /** Any other length at or below -2^30 makes the byte count negative: ArgumentOutOfRange. */
  lemma ReadWideNegativeCount(length: int, rest: seq<byte>)
    requires -0x8000_0000 < length <= -0x4000_0000
    ensures ReadUnrealString(Int32Bytes(length) + rest) == Err(ArgumentOutOfRange)
  {
    ReadInt32Of(length, rest);
    assert WrapInt32(length * -2) == length * -2 - TWO_32;
  }

  /** A zero length is the empty string and consumes only the four length bytes. */
  lemma ReadZeroLength(rest: seq<byte>)
    ensures ReadsAs(ReadUnrealString([0, 0, 0, 0] + rest), [], rest)
  {
    assert Int32Bytes(0) == [0, 0, 0, 0];
    ReadInt32Of(0, rest);
  }

  lemma TrimTerminated(value: Text)
    requires !EndsWithNul(value)
    ensures TrimEndNul(value + [NUL]) == value
  {
    var terminated := value + [NUL];
    assert terminated[..|terminated| - 1] == value;
  }

  /** Reading back what WriteUnrealString wrote gives the value, for either path. */
  lemma ReadWriteRoundTrip(value: Text, forceUnicode: bool, rest: seq<byte>)
    requires |value| < MaxLength && !EndsWithNul(value)
    ensures ReadsAs(ReadUnrealString(UnrealStringBytes(value, forceUnicode) + rest), value, rest)
  {
    var terminated := value + [NUL];
    var n := |terminated|;
    TrimTerminated(value);
    if !forceUnicode && IsAsciiString(terminated) {
      var body := AsciiBytes(terminated);
      assert Int32Bytes(n) + body + rest == Int32Bytes(|body|) + (body + rest);
      AsciiRoundTrip(terminated);
      ReadNarrow(body, rest);
    } else {
      var body := Utf16Bytes(terminated);
      assert Int32Bytes(n * -1) + body + rest == Int32Bytes(-n) + (body + rest);
      Utf16RoundTrip(terminated);
      ReadWide(n, body, rest);
    }
  }

  /** The reader's test vector: two strings read back to back, the second one cut short. */
  lemma ReadTestVector(data: seq<byte>)
    requires data == [0xFB, 0xFF, 0xFF, 0xFF, 0x20, 0xC7, 0xC8, 0xB2, 0x54, 0xCF, 0xDC, 0xB4, 0x00, 0x00,
                      0x06, 0x00, 0x00, 0x00, 0x41, 0x73, 0x43, 0x69, 0x49]
    ensures ReadsAs(ReadUnrealString(data), Unicode, data[14..])
    ensures ReadsAs(ReadUnrealString(data[14..]), Ascii, [])
  {
    var first := [0xFB, 0xFF, 0xFF, 0xFF, 0x20, 0xC7, 0xC8, 0xB2, 0x54, 0xCF, 0xDC, 0xB4, 0x00, 0x00];
    assert data == first + data[14..];
    ReadUnicode(data[14..]);
    ReadShortAscii(data[14..]);
  }

  /** The bytes of "유니코드" read back as that string, whatever follows them. */
  lemma ReadUnicode(rest: seq<byte>)
    ensures ReadsAs(ReadUnrealString([0xFB, 0xFF, 0xFF, 0xFF, 0x20, 0xC7, 0xC8, 0xB2, 0x54, 0xCF, 0xDC, 0xB4, 0x00, 0x00]
                                     + rest), Unicode, rest)
  {
    UnicodeStringBytes();
    ReadWriteRoundTrip(Unicode, false, rest);
  }

  /** The length field announces 6 bytes but only 5 follow: the short read still decodes them. */
  lemma ReadShortAscii(data: seq<byte>)
    requires data == [0x06, 0x00, 0x00, 0x00, 0x41, 0x73, 0x43, 0x69, 0x49]
    ensures ReadsAs(ReadUnrealString(data), Ascii, [])
  {
    var body := data[4..];
    assert data == Int32Bytes(6) + body;
    ReadInt32Of(6, body);
    assert ReadBytes(body, 6) == Ok((body, []));
    assert AsciiString(body) == Ascii;
  }
}
