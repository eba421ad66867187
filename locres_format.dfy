/**
 * The byte layout of a .locres file: what LocresFile.Save writes for each version and what
 * LocresFile.Load reads back, as functions on byte sequences. The class in module Codec
 * performs the same reads and writes step by step and is proved equal to these.
 */
module LocresFormat {
  import opened Wrappers
  import opened Binary
  import opened UnrealString
  import opened LocresTypes
  import opened StringTable
  import CityHash

  /** The 16-byte magic number that opens every non-legacy file. */
  const LOCRES_MAGIC: seq<byte> :=
    [0x0E, 0x14, 0x74, 0x75, 0x67, 0x4A, 0x03, 0xFC, 0x4A, 0x15, 0x90, 0x9D, 0xC3, 0x37, 0x7F, 0x1B]

  // ---------------------------------------------------------------- hashes of names and keys

  /** The bytes of a byte array, as the bit-vectors CityHash works on. */
  function AsBits(b: seq<byte>): (r: seq<bv8>)
    ensures |r| == |b|
  {
    seq(|b|, i requires 0 <= i < |b| => b[i] as bv8)
  }

  /**
   * The 64-to-32-bit fold of Unreal's GetTypeHash: `(uint)h + (uint)(h >> 32) * 23`, each
   * operation wrapping modulo 2^32.
   */
  function FoldHash(h: bv64): uint32
  {
    var low, high := (h as int) % TWO_32, (h as int) / TWO_32;
    (low + (high * 23) % TWO_32) % TWO_32
  }

  /**
   * LocresFile.CityHash64_utf16_to_uint32: the folded CityHash64 of the text's UTF-16LE bytes,
   * 0 for the empty text. CityHash's byte order is the default little-endian one.
   */
  function CityHash64Utf16ToUInt32(s: Text): (r: uint32)
    requires |s| <= MaxLength
    ensures |s| == 0 ==> r == 0
    ensures |s| > 0 ==> r == FoldHash(CityHash.CityHash64Of(AsBits(Utf16Bytes(s)), false))
  {
    if |s| == 0 then 0 else FoldHash(CityHash.CityHash64Of(AsBits(Utf16Bytes(s)), false))
  }

  /**
   * LocresFile.CityHash64_utf16_to_uint32 on every text. Texts longer than MaxLength cannot be
   * written at all, so its value on them (0) never reaches a file.
   */
  function CityHashOf(s: Text): (r: uint32)
    ensures |s| <= MaxLength ==> r == CityHash64Utf16ToUInt32(s)
  {
    if |s| <= MaxLength then CityHash64Utf16ToUInt32(s) else 0
  }

  /**
   * The two hash functions Save writes before names and keys: `crc`, Crc.StrCrc32 (not part
   * of this model), and `city`, which Save takes to be CityHashOf. The byte layout and the
   * round trips hold for any pair.
   */
  datatype Hashes = Hashes(crc: Text -> uint32, city: Text -> uint32)

  /** The hashes of Save: StrCrc32 as given, CityHash64_utf16_to_uint32. */
  function SaveHashes(crc: Text -> uint32): (hs: Hashes)
    ensures hs.crc == crc && forall s: Text :: hs.city(s) == CityHashOf(s)
  {
    Hashes(crc, CityHashOf)
  }

  /** The hash Save writes before a namespace name: CityHash for version 3, CRC32 from 2 up. */
  function NameHashBytes(version: Version, name: Text, hs: Hashes): (r: seq<byte>)
    ensures |r| == if version >= Optimized then 4 else 0
  {
    if version == OptimizedCityHash64Utf16 then UInt32Bytes(hs.city(name))
    else if version >= Optimized then UInt32Bytes(hs.crc(name))
    else []
  }

  /** The hash Save writes before a key: CityHash for version 3, CRC32 for version 2 only. */
  function KeyHashBytes(version: Version, key: Text, hs: Hashes): (r: seq<byte>)
    ensures |r| == if version == Optimized || version == OptimizedCityHash64Utf16 then 4 else 0
  {
    if version == OptimizedCityHash64Utf16 then UInt32Bytes(hs.city(key))
    else if version == Optimized then UInt32Bytes(hs.crc(key))
    else []
  }

  // ---------------------------------------------------------------- what Save writes

  /**
   * The header: magic, version byte, string-table offset, the total entry count (Optimized
   * and later) and the namespace count.
   */
  function HeaderBytes(version: Version, tableOffset: int, entryCount: int, namespaceCount: int): (r: seq<byte>)
    ensures |r| == HeaderLength(version)
  {
    LOCRES_MAGIC + [version] + Int64Bytes(tableOffset) + EntryCountField(version, entryCount)
      + Int32Bytes(namespaceCount)
  }

  /** The entry-count field of the header: present from Optimized up. */
  function EntryCountField(version: Version, entryCount: int): (r: seq<byte>)
    ensures |r| == if version >= Optimized then 4 else 0
  {
    if version >= Optimized then Int32Bytes(entryCount) else []
  }

  function HeaderLength(version: Version): nat
  {
    if version >= Optimized then 33 else 29
  }

  /** Where the string-table offset sits: right after the magic and the version byte. */
  const OffsetPosition: nat := 17

  /** One entry: key hash, key, source-string hash and the index of its value in the table. */
  function EntryBytes(e: LocresString, version: Version, hs: Hashes, index: int): seq<byte>
  {
    KeyHashBytes(version, e.Key, hs) + UnrealStringBytes(e.Key, false)
      + UInt32Bytes(e.SourceStringHash) + Int32Bytes(index)
  }

  /**
   * The entries of one namespace, the i-th of them with the table index `indexes[i]`.
   */
  function EntriesBytes(strings: seq<LocresString>, version: Version, hs: Hashes,
                        indexes: seq<int>): seq<byte>
    requires |indexes| == |strings|
  {
    if strings == [] then []
    else
      EntryBytes(strings[0], version, hs, indexes[0])
        + EntriesBytes(strings[1..], version, hs, indexes[1..])
  }

  /** What Save writes before a namespace's entries: name hash, name and entry count. */
  function NamespaceHeadBytes(ns: LocresNamespace, version: Version, hs: Hashes): seq<byte>
  {
    NameHashBytes(version, ns.Name, hs) + UnrealStringBytes(ns.Name, false) + Int32Bytes(|ns.Strings|)
  }

  /** The namespaces, the i-th entry of all of them with the table index `indexes[i]`. */
  function NamespacesBytes(nss: seq<LocresNamespace>, version: Version, hs: Hashes,
                           indexes: seq<int>): seq<byte>
    requires |indexes| == CountAll(nss)
  {
    if nss == [] then []
    else
      var n := |nss[0].Strings|;
      NamespaceHeadBytes(nss[0], version, hs)
        + EntriesBytes(nss[0].Strings, version, hs, indexes[..n])
        + NamespacesBytes(nss[1..], version, hs, indexes[n..])
  }

  /** Every text fits a .NET string with its terminating NUL. */
  predicate ShortTexts(ts: seq<Text>)
  {
    forall x :: x in ts ==> |x| < MaxLength
  }

  /** The string table's slots: each text, followed by its reference count from Optimized up. */
  function TableEntriesBytes(table: seq<StringTableEntry>, version: Version): seq<byte>
  {
    if table == [] then []
    else
      UnrealStringBytes(table[0].Text, false)
        + (if version >= Optimized then Int32Bytes(table[0].RefCount) else [])
        + TableEntriesBytes(table[1..], version)
  }

  /** The namespace section of a non-legacy file. */
  function BodyBytes(nss: seq<LocresNamespace>, version: Version, hs: Hashes): seq<byte>
  {
    CountAllIsLength(nss);
    NamespacesBytes(nss, version, hs, Indexes(Values(AllStrings(nss))))
  }

  /** The string table of a non-legacy file: its slot count, then its slots. */
  function TableBytes(nss: seq<LocresNamespace>, version: Version): seq<byte>
  {
    var values := Values(AllStrings(nss));
    Int32Bytes(|Build(values)|) + TableEntriesBytes(Build(values), version)
  }

  /** Where the string table of a file saved at stream position `start` begins. */
  function TableOffset(nss: seq<LocresNamespace>, version: Version, hs: Hashes, start: nat): nat
  {
    start + HeaderLength(version) + |BodyBytes(nss, version, hs)|
  }

  /**
   * The bytes a non-legacy Save writes from stream position `start`, once the offset and the
   * entry count have been filled in.
   */
  function SavedImage(nss: seq<LocresNamespace>, version: Version, hs: Hashes, start: nat): seq<byte>
  {
    HeaderBytes(version, TableOffset(nss, version, hs, start), CountAll(nss), |nss|)
      + BodyBytes(nss, version, hs) + TableBytes(nss, version)
  }

  /** A legacy entry: key, source-string hash and value, all inline. */
  function LegacyEntryBytes(e: LocresString): seq<byte>
  {
    UnrealStringBytes(e.Key, false) + UInt32Bytes(e.SourceStringHash) + UnrealStringBytes(e.Value, false)
  }

  /** The entries of a legacy namespace. */
  function LegacyEntriesBytes(strings: seq<LocresString>): seq<byte>
  {
    if strings == [] then []
    else
      LegacyEntryBytes(strings[0]) + LegacyEntriesBytes(strings[1..])
  }

  /** Legacy namespaces: the name always as UTF-16, the entry count and the entries. */
  function LegacyNamespacesBytes(nss: seq<LocresNamespace>): seq<byte>
  {
    if nss == [] then []
    else
      UnrealStringBytes(nss[0].Name, true) + Int32Bytes(|nss[0].Strings|)
        + LegacyEntriesBytes(nss[0].Strings) + LegacyNamespacesBytes(nss[1..])
  }

  /** What SaveLegacy writes: the namespace count and the namespaces; no magic, no table. */
  function LegacyImage(nss: seq<LocresNamespace>): seq<byte>
  {
    Int32Bytes(|nss|) + LegacyNamespacesBytes(nss)
  }

  // ---------------------------------------------------------------- writing one more item

  /** Writing one more entry appends its bytes. */
  lemma {:induction false} EntriesBytesSnoc(strings: seq<LocresString>, e: LocresString, v: Version,
                                            hs: Hashes, indexes: seq<int>, index: int)
    requires |indexes| == |strings|
    ensures EntriesBytes(strings + [e], v, hs, indexes + [index])
         == EntriesBytes(strings, v, hs, indexes) + EntryBytes(e, v, hs, index)
  {
    if strings != [] {
      assert (strings + [e])[1..] == strings[1..] + [e];
      assert (indexes + [index])[1..] == indexes[1..] + [index];
      EntriesBytesSnoc(strings[1..], e, v, hs, indexes[1..], index);
    } else {
      assert strings + [e] == [e];
    }
  }

  /** Writing one more legacy entry appends its bytes. */
  lemma {:induction false} LegacyEntriesBytesSnoc(strings: seq<LocresString>, e: LocresString)
    ensures LegacyEntriesBytes(strings + [e]) == LegacyEntriesBytes(strings) + LegacyEntryBytes(e)
  {
    if strings != [] {
      assert (strings + [e])[1..] == strings[1..] + [e];
      LegacyEntriesBytesSnoc(strings[1..], e);
    } else {
      assert strings + [e] == [e];
    }
  }

  /** Writing one more namespace appends its head and its entries. */
  lemma {:induction false} NamespacesBytesSnoc(nss: seq<LocresNamespace>, ns: LocresNamespace, v: Version,
                                               hs: Hashes, indexes: seq<int>, more: seq<int>)
    requires |indexes| == CountAll(nss) && |more| == |ns.Strings|
    ensures |indexes + more| == CountAll(nss + [ns])
    ensures NamespacesBytes(nss + [ns], v, hs, indexes + more)
         == NamespacesBytes(nss, v, hs, indexes) + (NamespaceHeadBytes(ns, v, hs) + EntriesBytes(ns.Strings, v, hs, more))
  {
    AllStringsAppend(nss, [ns]);
    var added := NamespaceHeadBytes(ns, v, hs) + EntriesBytes(ns.Strings, v, hs, more);
    if nss == [] {
      assert nss + [ns] == [ns];
      assert indexes + more == more;
      assert more[..|ns.Strings|] == more && more[|ns.Strings|..] == [];
      assert NamespacesBytes([ns], v, hs, more) == added + [];
      assert added + [] == added;
    } else {
      var all := nss + [ns];
      var n := |nss[0].Strings|;
      assert all[0] == nss[0] && all[1..] == nss[1..] + [ns];
      assert (indexes + more)[..n] == indexes[..n];
      assert (indexes + more)[n..] == indexes[n..] + more;
      NamespacesBytesSnoc(nss[1..], ns, v, hs, indexes[n..], more);
      var head := NamespaceHeadBytes(nss[0], v, hs) + EntriesBytes(nss[0].Strings, v, hs, indexes[..n]);
      var tail := NamespacesBytes(nss[1..], v, hs, indexes[n..]);
      assert NamespacesBytes(all, v, hs, indexes + more) == head + (tail + added);
      assert NamespacesBytes(nss, v, hs, indexes) == head + tail;
      Regroup2(head, tail, added);
    }
  }

  /** Writing one more legacy namespace appends its name, count and entries. */
  lemma {:induction false} LegacyNamespacesBytesSnoc(nss: seq<LocresNamespace>, ns: LocresNamespace)
    ensures LegacyNamespacesBytes(nss + [ns])
         == LegacyNamespacesBytes(nss)
            + (UnrealStringBytes(ns.Name, true) + Int32Bytes(|ns.Strings|) + LegacyEntriesBytes(ns.Strings))
  {
    var added := UnrealStringBytes(ns.Name, true) + Int32Bytes(|ns.Strings|) + LegacyEntriesBytes(ns.Strings);
    if nss == [] {
      assert nss + [ns] == [ns];
      assert LegacyNamespacesBytes([ns]) == added + [];
      assert added + [] == added;
    } else {
      var all := nss + [ns];
      assert all[0] == nss[0] && all[1..] == nss[1..] + [ns];
      LegacyNamespacesBytesSnoc(nss[1..], ns);
      var head := UnrealStringBytes(nss[0].Name, true) + Int32Bytes(|nss[0].Strings|) + LegacyEntriesBytes(nss[0].Strings);
      var tail := LegacyNamespacesBytes(nss[1..]);
      assert LegacyNamespacesBytes(all) == head + (tail + added);
      assert LegacyNamespacesBytes(nss) == head + tail;
      Regroup2(head, tail, added);
    }
  }

  /** Writing one more table slot appends its text and, from Optimized up, its count. */
  lemma {:induction false} TableEntriesBytesSnoc(table: seq<StringTableEntry>, e: StringTableEntry, v: Version)
    ensures TableEntriesBytes(table + [e], v)
         == TableEntriesBytes(table, v)
            + (UnrealStringBytes(e.Text, false) + (if v >= Optimized then Int32Bytes(e.RefCount) else []))
  {
    var added := UnrealStringBytes(e.Text, false) + (if v >= Optimized then Int32Bytes(e.RefCount) else []);
    if table == [] {
      assert table + [e] == [e];
      assert TableEntriesBytes([e], v) == added + [];
      assert added + [] == added;
    } else {
      var all := table + [e];
      assert all[0] == table[0] && all[1..] == table[1..] + [e];
      TableEntriesBytesSnoc(table[1..], e, v);
      var head := UnrealStringBytes(table[0].Text, false) + (if v >= Optimized then Int32Bytes(table[0].RefCount) else []);
      var tail := TableEntriesBytes(table[1..], v);
      assert TableEntriesBytes(all, v) == head + (tail + added);
      assert TableEntriesBytes(table, v) == head + tail;
      Regroup2(head, tail, added);
    }
  }

  // ---------------------------------------------------------------- what Load reads

  /** A read whose value is discarded: only the bytes after it matter. */
  function Skip<T>(r: Result<(T, seq<byte>), Error>): (s: Result<seq<byte>, Error>)
    ensures s.Ok? <==> r.Ok?
    ensures s.Ok? ==> s.value == r.value.1
  {
    if r.Ok? then Ok(r.value.1) else Err(r.error)
  }

  /**
   * The header (LocresFile.cs:41-51): sixteen bytes from `start` equal to the magic make the
   * next byte the version, whatever its value; otherwise the file is legacy and reading
   * restarts at position 0. Returns the version and the bytes that follow.
   */
  function ReadHeader(data: seq<byte>, start: nat): (r: Result<(Version, seq<byte>), Error>)
    ensures var rest := Remaining(data, start);
      if |rest| >= 16 && rest[..16] == LOCRES_MAGIC then
        (r.Ok? <==> |rest| >= 17) && (r.Ok? ==> r.value == (rest[16], rest[17..]))
      else r == Ok((Legacy, data))
  {
    var magic := ReadBytes(Remaining(data, start), 16).value;
    if magic.0 == LOCRES_MAGIC then
      var version :- ReadByte(magic.1);
      Ok((version.0, version.1))
    else
      Ok((Legacy, data))
  }

  /** `count` table strings, each followed by a reference count that is read and dropped. */
  function ReadTableStrings(rest: seq<byte>, count: nat, withRefCounts: bool): (r: Result<seq<Text>, Error>)
    ensures r.Ok? ==> |r.value| == count
    decreases count
  {
    if count == 0 then Ok([])
    else
      var s :- ReadUnrealString(rest);
      var after :- if withRefCounts then Skip(ReadInt32(s.1)) else Ok(s.1);
      var more :- ReadTableStrings(after, count - 1, withRefCounts);
      Ok([s.0] + more)
  }

  /**
   * The string table of a Compact or later file (LocresFile.cs:55-81): the int64 offset, the
   * strings stored there, and the bytes right after the offset field, where reading resumes.
   * A negative offset is an invalid stream position; a negative count an invalid array size.
   */
  function ReadStringTable(data: seq<byte>, rest: seq<byte>, version: Version)
    : (r: Result<(seq<Text>, seq<byte>), Error>)
    ensures r.Ok? ==> |rest| >= 8 && r.value.1 == rest[8..]
  {
    var offset :- ReadInt64(rest);
    if offset.0 < 0 then Err(ArgumentOutOfRange)
    else
      var count :- ReadInt32(Remaining(data, offset.0));
      if count.0 < 0 then Err(Overflow)
      else
        var table :- ReadTableStrings(count.1, count.0, version >= Optimized);
        Ok((table, offset.1))
  }

  /**
   * One entry (LocresFile.cs:101-121): key hash (dropped), key, source-string hash, then the
   * value: from the table by index for Compact and later, inline for Legacy.
   */
  function ReadEntry(rest: seq<byte>, version: Version, table: seq<Text>)
    : (r: Result<(LocresString, seq<byte>), Error>)
    ensures r.Ok? && version >= Compact ==> r.value.0.Value in table
  {
    var afterHash :- if version >= Optimized then Skip(ReadUInt32(rest)) else Ok(rest);
    var key :- ReadUnrealString(afterHash);
    var hash :- ReadUInt32(key.1);
    if version >= Compact then
      var index :- ReadInt32(hash.1);
      if 0 <= index.0 < |table| then Ok((LocresString(key.0, table[index.0], hash.0), index.1))
      else Err(IndexOutOfRange)
    else
      var value :- ReadUnrealString(hash.1);
      Ok((LocresString(key.0, value.0, hash.0), value.1))
  }

  /** `count` entries; a count of zero or less reads none. */
  function ReadEntries(rest: seq<byte>, count: int, version: Version, table: seq<Text>)
    : (r: Result<(seq<LocresString>, seq<byte>), Error>)
    ensures r.Ok? ==> |r.value.0| == if count <= 0 then 0 else count
    decreases if count <= 0 then 0 else count
  {
    if count <= 0 then Ok(([], rest))
    else
      var e :- ReadEntry(rest, version, table);
      var more :- ReadEntries(e.1, count - 1, version, table);
      Ok(([e.0] + more.0, more.1))
  }

  /** Reading `count` entries is reading one, then `count - 1` more. */
  lemma ReadEntriesStep(data: seq<byte>, count: int, v: Version, table: seq<Text>,
                        e: LocresString, mid: seq<byte>, es: seq<LocresString>, rest: seq<byte>)
    requires count == |es| + 1 && ReadEntry(data, v, table) == Ok((e, mid))
    requires ReadEntries(mid, |es|, v, table) == Ok((es, rest))
    ensures ReadEntries(data, count, v, table) == Ok(([e] + es, rest))
  {
    assert count - 1 == |es|;
  }

  /** An entry that cannot be read is the error of the whole list. */
  lemma ReadEntriesStop(data: seq<byte>, count: int, v: Version, table: seq<Text>, err: Error)
    requires count > 0 && ReadEntry(data, v, table) == Err(err)
    ensures ReadEntries(data, count, v, table) == Err(err)
  {
  }

  /** So is an error in the entries after the first. */
  lemma ReadEntriesBroken(data: seq<byte>, count: int, v: Version, table: seq<Text>,
                          e: LocresString, mid: seq<byte>, err: Error)
    requires count > 0 && ReadEntry(data, v, table) == Ok((e, mid))
    requires ReadEntries(mid, count - 1, v, table) == Err(err)
    ensures ReadEntries(data, count, v, table) == Err(err)
  {
  }

  /** One namespace (LocresFile.cs:90-124): name hash (dropped), name, key count, entries. */
  function ReadNamespace(rest: seq<byte>, version: Version, table: seq<Text>)
    : (r: Result<(LocresNamespace, seq<byte>), Error>)
  {
    var afterHash :- if version >= Optimized then Skip(ReadUInt32(rest)) else Ok(rest);
    var name :- ReadUnrealString(afterHash);
    var keyCount :- ReadInt32(name.1);
    var strings :- ReadEntries(keyCount.1, keyCount.0, version, table);
    Ok((LocresNamespace(name.0, strings.0), strings.1))
  }

  /** `count` namespaces; a count of zero or less reads none. */
  function ReadNamespaces(rest: seq<byte>, count: int, version: Version, table: seq<Text>)
    : (r: Result<(seq<LocresNamespace>, seq<byte>), Error>)
    ensures r.Ok? ==> |r.value.0| == if count <= 0 then 0 else count
    decreases if count <= 0 then 0 else count
  {
    if count <= 0 then Ok(([], rest))
    else
      var ns :- ReadNamespace(rest, version, table);
      var more :- ReadNamespaces(ns.1, count - 1, version, table);
      Ok(([ns.0] + more.0, more.1))
  }

  /** Reading `count` namespaces is reading one, then `count - 1` more. */
  lemma ReadNamespacesStep(data: seq<byte>, count: int, v: Version, table: seq<Text>,
                           ns: LocresNamespace, mid: seq<byte>, nss: seq<LocresNamespace>, rest: seq<byte>)
    requires count == |nss| + 1 && ReadNamespace(data, v, table) == Ok((ns, mid))
    requires ReadNamespaces(mid, |nss|, v, table) == Ok((nss, rest))
    ensures ReadNamespaces(data, count, v, table) == Ok(([ns] + nss, rest))
  {
    assert count - 1 == |nss|;
  }

  /** A namespace that cannot be read is the error of the whole list. */
  lemma ReadNamespacesStop(data: seq<byte>, count: int, v: Version, table: seq<Text>, err: Error)
    requires count > 0 && ReadNamespace(data, v, table) == Err(err)
    ensures ReadNamespaces(data, count, v, table) == Err(err)
  {
  }

  /** So is an error in the namespaces after the first. */
  lemma ReadNamespacesBroken(data: seq<byte>, count: int, v: Version, table: seq<Text>,
                             ns: LocresNamespace, mid: seq<byte>, err: Error)
    requires count > 0 && ReadNamespace(data, v, table) == Ok((ns, mid))
    requires ReadNamespaces(mid, count - 1, v, table) == Err(err)
    ensures ReadNamespaces(data, count, v, table) == Err(err)
  {
  }

  /**
   * A whole file read from stream position `start`: its version and its namespaces, or the
   * exception Load raises. Anything after the last namespace is ignored.
   */
  function ParseLocres(data: seq<byte>, start: nat): (r: Result<(Version, seq<LocresNamespace>), Error>)
  {
    var header :- ReadHeader(data, start);
    var version := header.0;
    var table :- if version >= Compact then ReadStringTable(data, header.1, version) else Ok(([], header.1));
    var afterCount :- if version >= Optimized then Skip(ReadInt32(table.1)) else Ok(table.1);
    var namespaceCount :- ReadInt32(afterCount);
    var nss :- ReadNamespaces(namespaceCount.1, namespaceCount.0, version, table.0);
    Ok((version, nss.0))
  }
}
