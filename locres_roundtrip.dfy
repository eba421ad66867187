/**
 * What LocresFile.Load makes of the bytes LocresFile.Save writes: for every version the
 * reader gives back the version and the namespaces, entry for entry.
 */
module LocresRoundTrip {
  import opened Wrappers
  import opened Binary
  import opened UnrealString
  import opened LocresTypes
  import opened StringTable
  import opened LocresFormat

  /**
   * The counts a saved file holds fit the int32 fields they are written to, as every .NET
   * list count does: the namespace count and each namespace's entry count.
   */
  predicate CountsFit(nss: seq<LocresNamespace>)
  {
    IsInt32(|nss|) && forall i :: 0 <= i < |nss| ==> IsInt32(|nss[i].Strings|)
  }

  /** The number of slots of the string table Save builds for the namespaces. */
  function TableSize(nss: seq<LocresNamespace>): (n: nat)
    ensures n <= CountAll(nss)
  {
    CountAllIsLength(nss);
    |Build(Values(AllStrings(nss)))|
  }

  lemma RestorableIsEncodable(nss: seq<LocresNamespace>)
    requires Restorable(nss)
    ensures Encodable(nss)
  {
  }

  /** A namespace whose name and entries read back unchanged and whose count fits an int. */
  predicate NamespaceFits(ns: LocresNamespace)
  {
    |ns.Name| < MaxLength && !EndsWithNul(ns.Name) && IsInt32(|ns.Strings|) && RestorableStrings(ns.Strings)
  }

  /** The first namespace fits; those after it keep the properties of the whole list. */
  lemma RestorableTail(nss: seq<LocresNamespace>)
    requires nss != [] && Restorable(nss) && CountsFit(nss)
    ensures Restorable(nss[1..]) && CountsFit(nss[1..])
    ensures NamespaceFits(nss[0])
  {
    AllStringsFrom(nss, 0);
    assert nss[0..] == nss;
    forall e | e in nss[0].Strings ensures RestorableString(e) {
      assert e in AllStrings(nss);
    }
  }

  // ---------------------------------------------------------------- entries

  /** The hash written before a key is skipped by the reader of the same version. */
  lemma SkipKeyHash(v: Version, key: Text, hs: Hashes, rest: seq<byte>)
    requires Compact <= v <= OptimizedCityHash64Utf16 && |key| < MaxLength
    ensures (if v >= Optimized then Skip(ReadUInt32(KeyHashBytes(v, key, hs) + rest))
             else Ok(KeyHashBytes(v, key, hs) + rest)) == Ok(rest)
  {
    var kh := KeyHashBytes(v, key, hs);
    if v >= Optimized {
      var hash := if v == OptimizedCityHash64Utf16 then hs.city(key) else hs.crc(key);
      assert kh == UInt32Bytes(hash);
      ReadUInt32Of(hash, rest);
    } else {
      assert kh + rest == rest;
    }
  }

  /**
   * A written entry reads back as the same entry, given a table whose slot `index` holds the
   * entry's value (Compact and later).
   */
  lemma ReadEntryOf(e: LocresString, v: Version, hs: Hashes, table: seq<Text>, index: int, rest: seq<byte>)
    requires Compact <= v <= OptimizedCityHash64Utf16 && RestorableString(e)
    requires 0 <= index < |table| && IsInt32(index) && table[index] == e.Value
    ensures ReadEntry(EntryBytes(e, v, hs, index) + rest, v, table) == Ok((e, rest))
  {
    var kh := KeyHashBytes(v, e.Key, hs);
    var key := UnrealStringBytes(e.Key, false);
    var tail := UInt32Bytes(e.SourceStringHash) + (Int32Bytes(index) + rest);
    Regroup4(kh, key, UInt32Bytes(e.SourceStringHash), Int32Bytes(index), rest);
    SkipKeyHash(v, e.Key, hs, key + tail);
    ReadWriteRoundTrip(e.Key, false, tail);
    ReadUInt32Of(e.SourceStringHash, Int32Bytes(index) + rest);
    ReadInt32Of(index, rest);
  }

  /** A written legacy entry, with its value inline, reads back as the same entry. */
  lemma ReadLegacyEntryOf(e: LocresString, table: seq<Text>, rest: seq<byte>)
    requires RestorableString(e)
    ensures ReadEntry(LegacyEntryBytes(e) + rest, Legacy, table) == Ok((e, rest))
  {
    var key := UnrealStringBytes(e.Key, false);
    var value := UnrealStringBytes(e.Value, false);
    Regroup3(key, UInt32Bytes(e.SourceStringHash), value, rest);
    ReadWriteRoundTrip(e.Key, false, UInt32Bytes(e.SourceStringHash) + (value + rest));
    ReadUInt32Of(e.SourceStringHash, value + rest);
    ReadWriteRoundTrip(e.Value, false, rest);
  }

  /** Each index designates, in `table`, the value of the entry it is written with. */
  predicate IndexesPoint(indexes: seq<int>, table: seq<Text>, strings: seq<LocresString>)
  {
    |indexes| == |strings| &&
    forall i :: 0 <= i < |strings| ==> 0 <= indexes[i] < |table| && IsInt32(indexes[i]) && table[indexes[i]] == strings[i].Value
  }

  lemma IndexesPointTail(indexes: seq<int>, table: seq<Text>, strings: seq<LocresString>)
    requires strings != [] && IndexesPoint(indexes, table, strings)
    ensures 0 <= indexes[0] < |table| && IsInt32(indexes[0]) && table[indexes[0]] == strings[0].Value
    ensures IndexesPoint(indexes[1..], table, strings[1..])
  {
  }

  /** The first entry's bytes, then the others'. */
  lemma EntriesBytesCons(strings: seq<LocresString>, v: Version, hs: Hashes,
                         indexes: seq<int>, rest: seq<byte>)
    requires strings != [] && |indexes| == |strings|
    requires EncodableStrings(strings) && EncodableStrings(strings[1..])
    ensures EncodableString(strings[0])
    ensures EntriesBytes(strings, v, hs, indexes) + rest
         == EntryBytes(strings[0], v, hs, indexes[0]) + (EntriesBytes(strings[1..], v, hs, indexes[1..]) + rest)
  {
    assert strings[0] in strings;
  }

  /** The entries of a namespace read back in order, given a table the indexes point into. */
  lemma {:induction false} ReadEntriesOf(strings: seq<LocresString>, v: Version, hs: Hashes,
                                         indexes: seq<int>, table: seq<Text>, rest: seq<byte>)
    requires Compact <= v <= OptimizedCityHash64Utf16
    requires RestorableStrings(strings) && IndexesPoint(indexes, table, strings)
    ensures ReadEntries(EntriesBytes(strings, v, hs, indexes) + rest, |strings|, v, table) == Ok((strings, rest))
  {
    RestorableStringsSplit(strings);
    if strings == [] {
      assert [] + rest == rest;
    } else {
      var e := strings[0];
      var more := EntriesBytes(strings[1..], v, hs, indexes[1..]);
      var data := EntryBytes(e, v, hs, indexes[0]) + (more + rest);
      EntriesBytesCons(strings, v, hs, indexes, rest);
      IndexesPointTail(indexes, table, strings);
      ReadEntryOf(e, v, hs, table, indexes[0], more + rest);
      ReadEntriesOf(strings[1..], v, hs, indexes[1..], table, rest);
      ReadEntriesStep(data, |strings|, v, table, e, more + rest, strings[1..], rest);
      HeadTail(strings);
    }
  }

  /** The first legacy entry's bytes, then the others'. */
  lemma LegacyEntriesBytesCons(strings: seq<LocresString>, rest: seq<byte>)
    requires strings != [] && EncodableStrings(strings) && EncodableStrings(strings[1..])
    ensures EncodableString(strings[0])
    ensures LegacyEntriesBytes(strings) + rest
         == LegacyEntryBytes(strings[0]) + (LegacyEntriesBytes(strings[1..]) + rest)
  {
    assert strings[0] in strings;
  }

  /** Legacy entries read back in order. */
  lemma {:induction false} ReadLegacyEntriesOf(strings: seq<LocresString>, table: seq<Text>, rest: seq<byte>)
    requires RestorableStrings(strings)
    ensures ReadEntries(LegacyEntriesBytes(strings) + rest, |strings|, Legacy, table) == Ok((strings, rest))
  {
    RestorableStringsSplit(strings);
    if strings == [] {
      assert [] + rest == rest;
    } else {
      var e := strings[0];
      var more := LegacyEntriesBytes(strings[1..]);
      LegacyEntriesBytesCons(strings, rest);
      ReadLegacyEntryOf(e, table, more + rest);
      ReadLegacyEntriesOf(strings[1..], table, rest);
      ReadEntriesStep(LegacyEntryBytes(e) + (more + rest), |strings|, Legacy, table, e, more + rest, strings[1..], rest);
      HeadTail(strings);
    }
  }

  // ---------------------------------------------------------------- string table

  /** Every text reads back unchanged from an Unreal string. */
  predicate RestorableTexts(ts: seq<Text>)
  {
    forall x :: x in ts ==> |x| < MaxLength && !EndsWithNul(x)
  }

  /** The first slot's bytes, then the others'. */
  lemma TableEntriesBytesCons(table: seq<StringTableEntry>, v: Version, rest: seq<byte>)
    requires table != [] && RestorableTexts(Texts(table))
    ensures |table[0].Text| < MaxLength && RestorableTexts(Texts(table[1..]))
    ensures TableEntriesBytes(table, v) + rest
         == UnrealStringBytes(table[0].Text, false)
            + ((if v >= Optimized then Int32Bytes(table[0].RefCount) else [])
            + (TableEntriesBytes(table[1..], v) + rest))
  {
    TextsCons(table);
    var text := UnrealStringBytes(table[0].Text, false);
    var refCount: seq<byte> := if v >= Optimized then Int32Bytes(table[0].RefCount) else [];
    var more := TableEntriesBytes(table[1..], v);
    assert TableEntriesBytes(table, v) == text + refCount + more;
    Regroup3(text, refCount, more, rest);
  }

  /**
   * The slots of a table read back as its texts, whatever the reference counts (they are
   * read and dropped).
   */
  lemma {:induction false} ReadTableOf(table: seq<StringTableEntry>, v: Version, rest: seq<byte>)
    requires RestorableTexts(Texts(table))
    ensures ReadTableStrings(TableEntriesBytes(table, v) + rest, |table|, v >= Optimized) == Ok(Texts(table))
  {
    if table != [] {
      var x := table[0].Text;
      var refCount: seq<byte> := if v >= Optimized then Int32Bytes(table[0].RefCount) else [];
      var more := TableEntriesBytes(table[1..], v) + rest;
      TableEntriesBytesCons(table, v, rest);
      assert x == Texts(table)[0] && x in Texts(table);
      ReadWriteRoundTrip(x, false, refCount + more);
      if v >= Optimized {
        ReadInt32Skips(table[0].RefCount, more);
      } else {
        assert refCount + more == more;
      }
      ReadTableOf(table[1..], v, rest);
      assert |table| - 1 == |table[1..]|;
      TextsCons(table);
    }
  }

  // ---------------------------------------------------------------- namespaces

  /** The hash written before a namespace name is skipped by the reader of the same version. */
  lemma SkipNameHash(v: Version, name: Text, hs: Hashes, rest: seq<byte>)
    requires |name| < MaxLength
    ensures (if v >= Optimized then Skip(ReadUInt32(NameHashBytes(v, name, hs) + rest))
             else Ok(NameHashBytes(v, name, hs) + rest)) == Ok(rest)
  {
    var hash := NameHashBytes(v, name, hs);
    if v >= Optimized {
      assert (hash + rest)[4..] == rest;
    } else {
      assert hash + rest == rest;
    }
  }

  /** A written namespace reads back as the same namespace (Compact to Optimized_CityHash64_UTF16). */
  lemma ReadNamespaceOf(ns: LocresNamespace, v: Version, hs: Hashes, indexes: seq<int>,
                        table: seq<Text>, rest: seq<byte>)
    requires Compact <= v <= OptimizedCityHash64Utf16
    requires NamespaceFits(ns) && IndexesPoint(indexes, table, ns.Strings)
    ensures RestorableStrings(ns.Strings) && EncodableStrings(ns.Strings)
    ensures ReadNamespace(NamespaceHeadBytes(ns, v, hs) + (EntriesBytes(ns.Strings, v, hs, indexes) + rest), v, table)
         == Ok((ns, rest))
  {
    RestorableStringsSplit(ns.Strings);
    var hash := NameHashBytes(v, ns.Name, hs);
    var name := UnrealStringBytes(ns.Name, false);
    var count := Int32Bytes(|ns.Strings|);
    var entries := EntriesBytes(ns.Strings, v, hs, indexes) + rest;
    Regroup3(hash, name, count, entries);
    SkipNameHash(v, ns.Name, hs, name + (count + entries));
    ReadWriteRoundTrip(ns.Name, false, count + entries);
    ReadInt32Of(|ns.Strings|, entries);
    ReadEntriesOf(ns.Strings, v, hs, indexes, table, rest);
  }

  /** A written legacy namespace, its name forced to UTF-16, reads back as the same namespace. */
  lemma ReadLegacyNamespaceOf(ns: LocresNamespace, table: seq<Text>, rest: seq<byte>)
    requires NamespaceFits(ns)
    ensures RestorableStrings(ns.Strings) && EncodableStrings(ns.Strings)
    ensures ReadNamespace(UnrealStringBytes(ns.Name, true) + (Int32Bytes(|ns.Strings|)
              + (LegacyEntriesBytes(ns.Strings) + rest)), Legacy, table)
         == Ok((ns, rest))
  {
    RestorableStringsSplit(ns.Strings);
    var count := Int32Bytes(|ns.Strings|);
    var entries := LegacyEntriesBytes(ns.Strings) + rest;
    ReadWriteRoundTrip(ns.Name, true, count + entries);
    ReadInt32Of(|ns.Strings|, entries);
    ReadLegacyEntriesOf(ns.Strings, table, rest);
  }

  /** The indexes of two lists of entries, one after the other, split where the lists do. */
  lemma IndexesPointSplit(indexes: seq<int>, table: seq<Text>, a: seq<LocresString>, b: seq<LocresString>)
    requires IndexesPoint(indexes, table, a + b)
    ensures IndexesPoint(indexes[..|a|], table, a) && IndexesPoint(indexes[|a|..], table, b)
  {
    forall i | 0 <= i < |b| ensures indexes[|a|..][i] == indexes[|a| + i] && (a + b)[|a| + i] == b[i] {
    }
  }

  /** The first namespace's bytes, then the others'. */
  lemma NamespacesBytesCons(nss: seq<LocresNamespace>, v: Version, hs: Hashes, indexes: seq<int>,
                            rest: seq<byte>)
    requires nss != [] && Encodable(nss) && |indexes| == CountAll(nss)
    ensures |nss[0].Name| < MaxLength && |nss[0].Strings| <= |indexes|
    ensures Encodable(nss[1..]) && EncodableStrings(nss[0].Strings)
    ensures |indexes[|nss[0].Strings|..]| == CountAll(nss[1..])
    ensures NamespacesBytes(nss, v, hs, indexes) + rest
         == NamespaceHeadBytes(nss[0], v, hs)
            + (EntriesBytes(nss[0].Strings, v, hs, indexes[..|nss[0].Strings|])
            + (NamespacesBytes(nss[1..], v, hs, indexes[|nss[0].Strings|..]) + rest))
  {
    AllStringsFrom(nss, 0);
    assert nss[0..] == nss;
    var n := |nss[0].Strings|;
    var head := NamespaceHeadBytes(nss[0], v, hs);
    var entries := EntriesBytes(nss[0].Strings, v, hs, indexes[..n]);
    var more := NamespacesBytes(nss[1..], v, hs, indexes[n..]);
    assert NamespacesBytes(nss, v, hs, indexes) == head + entries + more;
    Regroup3(head, entries, more, rest);
  }

  /** The namespaces read back in order, given a table the indexes point into. */
  lemma {:induction false} ReadNamespacesOf(nss: seq<LocresNamespace>, v: Version, hs: Hashes,
                                            indexes: seq<int>, table: seq<Text>, rest: seq<byte>)
    requires Compact <= v <= OptimizedCityHash64Utf16
    requires Restorable(nss) && CountsFit(nss)
    requires |indexes| == CountAll(nss) && IndexesPoint(indexes, table, AllStrings(nss))
    ensures Encodable(nss)
    ensures ReadNamespaces(NamespacesBytes(nss, v, hs, indexes) + rest, |nss|, v, table) == Ok((nss, rest))
  {
    RestorableIsEncodable(nss);
    if nss == [] {
      assert [] + rest == rest;
    } else {
      var ns, tail, n := nss[0], nss[1..], |nss[0].Strings|;
      RestorableTail(nss);
      NamespacesBytesCons(nss, v, hs, indexes, rest);
      IndexesPointSplit(indexes, table, ns.Strings, AllStrings(tail));
      var more := NamespacesBytes(tail, v, hs, indexes[n..]) + rest;
      ReadNamespaceOf(ns, v, hs, indexes[..n], table, more);
      ReadNamespacesOf(tail, v, hs, indexes[n..], table, rest);
      ReadNamespacesStep(NamespacesBytes(nss, v, hs, indexes) + rest, |nss|, v, table, ns, more, tail, rest);
      HeadTail(nss);
    }
  }

  /** The first legacy namespace's bytes, then the others'. */
  lemma LegacyNamespacesBytesCons(nss: seq<LocresNamespace>, rest: seq<byte>)
    requires nss != [] && Encodable(nss)
    ensures |nss[0].Name| < MaxLength && Encodable(nss[1..]) && EncodableStrings(nss[0].Strings)
    ensures LegacyNamespacesBytes(nss) + rest
         == UnrealStringBytes(nss[0].Name, true)
            + (Int32Bytes(|nss[0].Strings|) + (LegacyEntriesBytes(nss[0].Strings) + (LegacyNamespacesBytes(nss[1..]) + rest)))
  {
    AllStringsFrom(nss, 0);
    assert nss[0..] == nss;
    var name := UnrealStringBytes(nss[0].Name, true);
    var count := Int32Bytes(|nss[0].Strings|);
    var entries := LegacyEntriesBytes(nss[0].Strings);
    var more := LegacyNamespacesBytes(nss[1..]);
    assert LegacyNamespacesBytes(nss) == name + count + entries + more;
    Regroup4(name, count, entries, more, rest);
  }

  /** Legacy namespaces read back in order. */
  lemma {:induction false} ReadLegacyNamespacesOf(nss: seq<LocresNamespace>, table: seq<Text>, rest: seq<byte>)
    requires Restorable(nss) && CountsFit(nss)
    ensures Encodable(nss)
    ensures ReadNamespaces(LegacyNamespacesBytes(nss) + rest, |nss|, Legacy, table) == Ok((nss, rest))
  {
    RestorableIsEncodable(nss);
    if nss == [] {
      assert [] + rest == rest;
    } else {
      var ns, tail := nss[0], nss[1..];
      RestorableTail(nss);
      LegacyNamespacesBytesCons(nss, rest);
      var more := LegacyNamespacesBytes(tail) + rest;
      ReadLegacyNamespaceOf(ns, table, more);
      ReadLegacyNamespacesOf(tail, table, rest);
      ReadNamespacesStep(LegacyNamespacesBytes(nss) + rest, |nss|, Legacy, table, ns, more, tail, rest);
      HeadTail(nss);
    }
  }

  // ---------------------------------------------------------------- whole files

  /** The header, then what follows it, one field at a time. */
  lemma HeaderBytesCons(v: Version, offset: int, count: int, namespaceCount: int, after: seq<byte>)
    ensures HeaderBytes(v, offset, count, namespaceCount) + after
         == LOCRES_MAGIC + ([v] + (Int64Bytes(offset)
            + ((if v >= Optimized then Int32Bytes(count) else []) + (Int32Bytes(namespaceCount) + after))))
  {
    var entryCount: seq<byte> := if v >= Optimized then Int32Bytes(count) else [];
    Regroup4(LOCRES_MAGIC + [v], Int64Bytes(offset), entryCount, Int32Bytes(namespaceCount), after);
    Regroup2(LOCRES_MAGIC, [v], Int64Bytes(offset) + (entryCount + (Int32Bytes(namespaceCount) + after)));
  }

  /** A written header reads back as its version, leaving the fields after the version byte. */
  lemma ReadSavedHeader(data: seq<byte>, start: nat, v: Version, offset: int, count: int,
                        namespaceCount: int, after: seq<byte>)
    requires start <= |data| && data[start..] == HeaderBytes(v, offset, count, namespaceCount) + after
    ensures ReadHeader(data, start)
         == Ok((v, Int64Bytes(offset)
                   + ((if v >= Optimized then Int32Bytes(count) else []) + (Int32Bytes(namespaceCount) + after))))
  {
    var fields := Int64Bytes(offset)
      + ((if v >= Optimized then Int32Bytes(count) else []) + (Int32Bytes(namespaceCount) + after));
    HeaderBytesCons(v, offset, count, namespaceCount, after);
    var rest := Remaining(data, start);
    assert rest == LOCRES_MAGIC + ([v] + fields);
    assert rest[..16] == LOCRES_MAGIC;
    assert rest[16] == v;
    assert rest[17..] == fields;
  }

  /** Every slot of the table Save builds holds a text that reads back unchanged. */
  lemma RestorableTable(nss: seq<LocresNamespace>)
    requires Restorable(nss)
    ensures RestorableTexts(Texts(Build(Values(AllStrings(nss)))))
  {
    RestorableValues(nss);
    BuildCovers(Values(AllStrings(nss)));
  }

  /** Every index Save writes designates the slot holding the value of its entry. */
  lemma IndexesPointAll(nss: seq<LocresNamespace>)
    requires IsInt32(TableSize(nss))
    ensures IndexesPoint(Indexes(Values(AllStrings(nss))), Texts(Build(Values(AllStrings(nss)))), AllStrings(nss))
  {
    var strings := AllStrings(nss);
    var values := Values(strings);
    var indexes, table := Indexes(values), Texts(Build(values));
    forall i | 0 <= i < |strings|
      ensures 0 <= indexes[i] < |table| && IsInt32(indexes[i]) && table[indexes[i]] == strings[i].Value
    {
      IndexPoints(values, i);
    }
  }

  /** The `k`-th index designates the slot of the built table holding the `k`-th value. */
  lemma IndexPoints(values: seq<Text>, k: nat)
    requires k < |values|
    ensures 0 <= Indexes(values)[k] < |Texts(Build(values))|
    ensures Texts(Build(values))[Indexes(values)[k]] == values[k]
  {
    IndexAtPoints(values, k);
    IndexesAt(values, k);
  }

  /** The string table sits at the offset written in the header. */
  lemma SavedTablePosition(nss: seq<LocresNamespace>, v: Version, hs: Hashes,
                           prefix: seq<byte>, suffix: seq<byte>)
    requires Encodable(nss)
    ensures var data := prefix + SavedImage(nss, v, hs, |prefix|) + suffix;
      |prefix| <= |data| && TableOffset(nss, v, hs, |prefix|) <= |data|
      && data[|prefix|..] == HeaderBytes(v, TableOffset(nss, v, hs, |prefix|), CountAll(nss), |nss|)
           + (BodyBytes(nss, v, hs) + (TableBytes(nss, v) + suffix))
      && data[TableOffset(nss, v, hs, |prefix|)..] == TableBytes(nss, v) + suffix
  {
    var offset := TableOffset(nss, v, hs, |prefix|);
    var header := HeaderBytes(v, offset, CountAll(nss), |nss|);
    var body, table := BodyBytes(nss, v, hs), TableBytes(nss, v);
    SplitAt(prefix, header, body, table, suffix, SavedImage(nss, v, hs, |prefix|), offset);
  }

  /** Reading the string table of a saved file gives the texts of the table Save built. */
  lemma ReadSavedTable(nss: seq<LocresNamespace>, v: Version, hs: Hashes,
                       prefix: seq<byte>, suffix: seq<byte>, after: seq<byte>)
    requires Compact <= v && Restorable(nss) && IsInt32(TableSize(nss))
    requires IsInt64(TableOffset(nss, v, hs, |prefix|))
    ensures ReadStringTable(prefix + SavedImage(nss, v, hs, |prefix|) + suffix,
                            Int64Bytes(TableOffset(nss, v, hs, |prefix|)) + after, v)
         == Ok((Texts(Build(Values(AllStrings(nss)))), after))
  {
    var data := prefix + SavedImage(nss, v, hs, |prefix|) + suffix;
    var t := Build(Values(AllStrings(nss)));
    var offset := TableOffset(nss, v, hs, |prefix|);
    ReadInt64Of(offset, after);
    SavedTablePosition(nss, v, hs, prefix, suffix);
    RestorableTable(nss);
    var entries := TableEntriesBytes(t, v);
    assert TableBytes(nss, v) == Int32Bytes(|t|) + entries;
    Regroup2(Int32Bytes(|t|), entries, suffix);
    ReadInt32Of(|t|, entries + suffix);
    ReadTableOf(t, v, suffix);
    ReadStringTableSteps(data, Int64Bytes(offset) + after, v, offset, after, |t|, entries + suffix, Texts(t));
  }

  /** The string table is read with the offset, the slot count and the slots the reads give. */
  lemma ReadStringTableSteps(data: seq<byte>, fields: seq<byte>, v: Version, offset: int, after: seq<byte>,
                             count: int, slots: seq<byte>, texts: seq<Text>)
    requires ReadInt64(fields) == Ok((offset, after)) && offset >= 0
    requires ReadInt32(Remaining(data, offset)) == Ok((count, slots)) && count >= 0
    requires ReadTableStrings(slots, count, v >= Optimized) == Ok(texts)
    ensures ReadStringTable(data, fields, v) == Ok((texts, after))
  {
  }

  /** Load succeeds with the version and namespaces its successive reads give. */
  lemma ParseLocresSteps(data: seq<byte>, start: nat, v: Version, fields: seq<byte>, table: seq<Text>,
                         afterTable: seq<byte>, afterCount: seq<byte>, namespaces: seq<byte>,
                         nss: seq<LocresNamespace>, rest: seq<byte>)
    requires ReadHeader(data, start) == Ok((v, fields))
    requires (if v >= Compact then ReadStringTable(data, fields, v) else Ok(([], fields))) == Ok((table, afterTable))
    requires (if v >= Optimized then Skip(ReadInt32(afterTable)) else Ok(afterTable)) == Ok(afterCount)
    requires ReadInt32(afterCount) == Ok((|nss|, namespaces))
    requires ReadNamespaces(namespaces, |nss|, v, table) == Ok((nss, rest))
    ensures ParseLocres(data, start) == Ok((v, nss))
  {
  }

  /**
   * Load of what Save wrote at stream position |prefix|, for Compact to
   * Optimized_CityHash64_UTF16, gives back the version and the namespaces.
   */
  lemma SavedRoundTrip(nss: seq<LocresNamespace>, v: Version, hs: Hashes,
                       prefix: seq<byte>, suffix: seq<byte>)
    requires Compact <= v <= OptimizedCityHash64Utf16
    requires Restorable(nss) && CountsFit(nss) && IsInt32(TableSize(nss))
    requires IsInt64(TableOffset(nss, v, hs, |prefix|))
    ensures ParseLocres(prefix + SavedImage(nss, v, hs, |prefix|) + suffix, |prefix|) == Ok((v, nss))
  {
    var data := prefix + SavedImage(nss, v, hs, |prefix|) + suffix;
    var values := Values(AllStrings(nss));
    var offset := TableOffset(nss, v, hs, |prefix|);
    var body, table := BodyBytes(nss, v, hs), TableBytes(nss, v);
    var namespaces := Int32Bytes(|nss|) + (body + (table + suffix));
    var entryCount: seq<byte> := if v >= Optimized then Int32Bytes(CountAll(nss)) else [];
    SavedTablePosition(nss, v, hs, prefix, suffix);
    ReadSavedHeader(data, |prefix|, v, offset, CountAll(nss), |nss|, body + (table + suffix));
    ReadSavedTable(nss, v, hs, prefix, suffix, entryCount + namespaces);
    if v >= Optimized {
      ReadInt32Skips(CountAll(nss), namespaces);
    } else {
      assert entryCount + namespaces == namespaces;
    }
    ReadInt32Of(|nss|, body + (table + suffix));
    CountAllIsLength(nss);
    IndexesPointAll(nss);
    ReadNamespacesOf(nss, v, hs, Indexes(values), Texts(Build(values)), table + suffix);
    ParseLocresSteps(data, |prefix|, v, Int64Bytes(offset) + (entryCount + namespaces), Texts(Build(values)),
                     entryCount + namespaces, namespaces, body + (table + suffix), nss, table + suffix);
  }

  /**
   * A legacy file never opens with the magic number unless it holds exactly 0x7574140E
   * namespaces, the int32 whose bytes are the magic's first four.
   */
  lemma LegacyHasNoMagic(nss: seq<LocresNamespace>, suffix: seq<byte>)
    requires Encodable(nss) && IsInt32(|nss|) && |nss| != 0x7574140E
    ensures var data := LegacyImage(nss) + suffix;
      !(|data| >= 16 && data[..16] == LOCRES_MAGIC)
  {
    var data := LegacyImage(nss) + suffix;
    var count := Int32Bytes(|nss|);
    Regroup2(count, LegacyNamespacesBytes(nss), suffix);
    if |data| >= 16 && data[..16] == LOCRES_MAGIC {
      assert data[..4] == count;
      assert count == [0x0E, 0x14, 0x74, 0x75];
      assert UInt32Of([0x0E, 0x14, 0x74, 0x75]) == 0x7574140E;
      Int32RoundTrip(|nss|);
      assert false;
    }
  }

  /** Load of what SaveLegacy wrote at the start of a stream gives back Legacy and the namespaces. */
  lemma LegacyRoundTrip(nss: seq<LocresNamespace>, suffix: seq<byte>)
    requires Restorable(nss) && CountsFit(nss) && |nss| != 0x7574140E
    ensures ParseLocres(LegacyImage(nss) + suffix, 0) == Ok((Legacy, nss))
  {
    var data := LegacyImage(nss) + suffix;
    var namespaces := LegacyNamespacesBytes(nss) + suffix;
    LegacyHasNoMagic(nss, suffix);
    assert Remaining(data, 0) == data;
    Regroup2(Int32Bytes(|nss|), LegacyNamespacesBytes(nss), suffix);
    ReadInt32Of(|nss|, namespaces);
    ReadLegacyNamespacesOf(nss, [], suffix);
    ParseLocresSteps(data, 0, Legacy, data, [], data, data, namespaces, nss, suffix);
  }

  /**
   * Load, from the position Save started at, of the stream Save left behind for Compact to
   * Optimized_CityHash64_UTF16: whatever the stream held before, the version and the
   * namespaces come back.
   */
  lemma SaveThenLoad(before: seq<byte>, start: nat, nss: seq<LocresNamespace>, v: Version, hs: Hashes)
    requires start <= |before|
    requires Compact <= v <= OptimizedCityHash64Utf16
    requires Restorable(nss) && CountsFit(nss) && IsInt32(TableSize(nss))
    requires IsInt64(TableOffset(nss, v, hs, start))
    ensures ParseLocres(Overwrite(before, start, SavedImage(nss, v, hs, start)), start) == Ok((v, nss))
  {
    var image := SavedImage(nss, v, hs, start);
    var suffix := if start + |image| <= |before| then before[start + |image|..] else [];
    OverwriteSplit(before, start, image);
    SavedRoundTrip(nss, v, hs, before[..start], suffix);
  }

  /** Load of the stream SaveLegacy wrote from its start gives back Legacy and the namespaces. */
  lemma LegacySaveThenLoad(before: seq<byte>, nss: seq<LocresNamespace>)
    requires Restorable(nss) && CountsFit(nss) && |nss| != 0x7574140E
    ensures ParseLocres(Overwrite(before, 0, LegacyImage(nss)), 0) == Ok((Legacy, nss))
  {
    var image := LegacyImage(nss);
    var suffix := if |image| <= |before| then before[|image|..] else [];
    OverwriteFromStart(before, image);
    LegacyRoundTrip(nss, suffix);
  }
}
