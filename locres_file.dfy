/**
 * Codec: the write steps of LocresFile.Save and SaveLegacy (LocresFile.cs:129-241) as
 * methods that write to the stream: the header with its placeholders, the namespaces and
 * their entries, the string table, the patched header fields, and the legacy layout; and
 * AddValue, which grows the string table as the entries are written. Each method is proved
 * against the byte-level functions of module LocresFormat. The namespace list, Load and Save
 * are in module LocresLib, the read loops in module Reading.
 */
module Codec {
  import opened Wrappers
  import opened Binary
  import opened UnrealString
  import opened LocresTypes
  import opened StringTable
  import opened LocresFormat

  // ---------------------------------------------------------------- writing, step by step

  /** `written` has gone to `stream` from position `start` of what it held before (`before`). */
  ghost predicate Wrote(stream: Stream, before: seq<byte>, start: nat, written: seq<byte>)
    reads stream
  {
    stream.Valid() && start <= |before|
    && stream.Data == Overwrite(before, start, written) && stream.Position == start + |written|
  }

  /** BinaryWriter.Write of raw bytes: `bs` follows what was written so far. */
  method Put(stream: Stream, bs: seq<byte>, ghost before: seq<byte>, ghost start: nat, ghost written: seq<byte>)
    requires Wrote(stream, before, start, written)
    modifies stream
    ensures Wrote(stream, before, start, written + bs)
  {
    stream.Write(bs);
    OverwriteSequential(before, start, written, bs);
  }

  /** WriteUnrealString, following what was written so far. */
  method PutString(stream: Stream, value: Text, forceUnicode: bool,
                   ghost before: seq<byte>, ghost start: nat, ghost written: seq<byte>)
    requires Wrote(stream, before, start, written) && |value| < MaxLength
    modifies stream
    ensures Wrote(stream, before, start, written + UnrealStringBytes(value, forceUnicode))
  {
    WriteUnrealString(stream, value, forceUnicode);
    OverwriteSequential(before, start, written, UnrealStringBytes(value, forceUnicode));
  }

  /**
   * Entry `j` of a namespace (LocresFile.cs:170-191): key hash (CityHash for version 3, CRC32
   * for version 2, none otherwise), key, source-string hash, then the value's slot in the
   * string table, found or added, and its index. The entry's value is the `k`-th of the plan,
   * and `indexes` are the plan's table indexes of the namespace's entries.
   */
  method SaveEntry(stream: Stream, strings: seq<LocresString>, j: nat, version: Version, hs: Hashes,
                   table: seq<StringTableEntry>,
                   ghost values: seq<Text>, ghost tables: seq<seq<StringTableEntry>>, ghost plan: seq<int>,
                   ghost indexes: seq<int>, ghost k: nat, ghost blocks: seq<seq<byte>>,
                   ghost before: seq<byte>, ghost start: nat, ghost written: seq<byte>)
    returns (table': seq<StringTableEntry>)
    requires j < |strings| && EncodableString(strings[j]) && EntryBlocks(blocks, strings, version, hs, indexes)
    requires Wrote(stream, before, start, written)
    requires PlannedAt(values, tables, plan, k, strings[j].Value, table, indexes[j])
    modifies stream
    ensures table' == tables[k + 1]
    ensures Wrote(stream, before, start, written + blocks[j])
  {
    var e := strings[j];
    ghost var w0 := written;
    assert blocks[j] == EntryBlock(strings, version, hs, indexes, j);
    if version == OptimizedCityHash64Utf16 {
      Put(stream, UInt32Bytes(hs.city(e.Key)), before, start, w0);
    } else if version == Optimized {
      Put(stream, UInt32Bytes(hs.crc(e.Key)), before, start, w0);
    } else {
      assert w0 + [] == w0;
    }
    ghost var w1 := w0 + KeyHashBytes(version, e.Key, hs);
    PutString(stream, e.Key, false, before, start, w1);
    ghost var w2 := w1 + UnrealStringBytes(e.Key, false);
    Put(stream, UInt32Bytes(e.SourceStringHash), before, start, w2);
    ghost var w3 := w2 + UInt32Bytes(e.SourceStringHash);
    var index;
    table', index := AddValue(table, e.Value);
    assert Add(tables[k], values[k]) == (tables[k + 1], plan[k]);
    Put(stream, Int32Bytes(index), before, start, w3);
    RegroupWrites(w0, KeyHashBytes(version, e.Key, hs), UnrealStringBytes(e.Key, false),
                  UInt32Bytes(e.SourceStringHash), Int32Bytes(index));
  }

  /** In the plan, the `k`-th value is `value`, looked up in `table` to give `index`. */
  ghost predicate PlannedAt(values: seq<Text>, tables: seq<seq<StringTableEntry>>, plan: seq<int>, k: nat,
                            value: Text, table: seq<StringTableEntry>, index: int)
  {
    SavePlan(values, tables, plan) && k < |values| && values[k] == value && table == tables[k] && index == plan[k]
  }

  /**
   * The string-table lookup of Save (LocresFile.cs:178-188): the first slot holding `value`
   * gains a reference, or a new slot with one reference is appended; returns the updated table
   * and the slot's index.
   */
  method AddValue(table: seq<StringTableEntry>, value: Text) returns (table': seq<StringTableEntry>, index: int)
    ensures (table', index) == Add(table, value)
  {
    index := FindIndex(table, value);
    if index == -1 {
      index := |table|;
      table' := table + [StringTableEntry(value, 1)];
    } else {
      table' := table[index := table[index].(RefCount := table[index].RefCount + 1)];
    }
  }

  /** The bytes of entry `i` of a namespace, whose value has slot `indexes[i]`. */
  ghost function EntryBlock(strings: seq<LocresString>, version: Version, hs: Hashes, indexes: seq<int>, i: nat)
    : seq<byte>
    requires i < |strings| && i < |indexes|
  {
    EntryBytes(strings[i], version, hs, indexes[i])
  }

  /** `blocks` holds the bytes of each entry of a namespace, in order. */
  ghost predicate EntryBlocks(blocks: seq<seq<byte>>, strings: seq<LocresString>, version: Version, hs: Hashes,
                              indexes: seq<int>)
  {
    |blocks| == |strings| == |indexes| &&
    forall i {:trigger EntryBlock(strings, version, hs, indexes, i)} :: 0 <= i < |blocks| ==>
      blocks[i] == EntryBlock(strings, version, hs, indexes, i)
  }

  /** `written`, then the first `j` blocks. */
  ghost function Appended(written: seq<byte>, blocks: seq<seq<byte>>, j: nat): seq<byte>
    requires j <= |blocks|
  {
    if j == 0 then written else Appended(written, blocks, j - 1) + blocks[j - 1]
  }

  /** One more block follows the ones before it. */
  lemma AppendedSnoc(written: seq<byte>, blocks: seq<seq<byte>>, j: nat)
    requires j < |blocks|
    ensures Appended(written, blocks, j + 1) == Appended(written, blocks, j) + blocks[j]
  {
  }

  /** Entry by entry, the loop writes what EntriesBytes describes. */
  lemma {:induction false} AppendedEntries(written: seq<byte>, blocks: seq<seq<byte>>, strings: seq<LocresString>,
                                           version: Version, hs: Hashes, indexes: seq<int>, j: nat)
    requires EntryBlocks(blocks, strings, version, hs, indexes) && j <= |blocks|
    ensures Appended(written, blocks, j) == written + EntriesBytes(strings[..j], version, hs, indexes[..j])
  {
    if j != 0 {
      AppendedEntries(written, blocks, strings, version, hs, indexes, j - 1);
      assert blocks[j - 1] == EntryBlock(strings, version, hs, indexes, j - 1);
      TakeSnoc(strings, j);
      TakeSnoc(indexes, j);
      EntriesBytesSnoc(strings[..j - 1], strings[j - 1], version, hs, indexes[..j - 1], indexes[j - 1]);
      Regroup2(written, EntriesBytes(strings[..j - 1], version, hs, indexes[..j - 1]), blocks[j - 1]);
    }
  }

  /**
   * The entries of one namespace (LocresFile.cs:168-192), each value looked up in and added to
   * the string table. The values of these entries are those of `values` from `offset` on, and
   * `table` is the table the plan holds there; `count` is the number of entries counted so far.
   */
  method SaveStrings(stream: Stream, strings: seq<LocresString>, version: Version, hs: Hashes,
                     table: seq<StringTableEntry>, count: int,
                     ghost values: seq<Text>, ghost tables: seq<seq<StringTableEntry>>, ghost indexes: seq<int>,
                     ghost offset: nat, ghost blocks: seq<seq<byte>>,
                     ghost before: seq<byte>, ghost start: nat, ghost written: seq<byte>)
    returns (table': seq<StringTableEntry>, count': int)
    requires Wrote(stream, before, start, written) && EncodableStrings(strings)
    requires SavePlan(values, tables, indexes)
    requires offset + |strings| <= |values| && values[offset..offset + |strings|] == Values(strings)
    requires table == tables[offset]
    requires EntryBlocks(blocks, strings, version, hs, indexes[offset..offset + |strings|])
    modifies stream
    ensures table' == tables[offset + |strings|] && count' == count + |strings|
    ensures Wrote(stream, before, start, Appended(written, blocks, |strings|))
  {
    table', count' := table, count;
    ghost var mine := indexes[offset..offset + |strings|];
    ghost var w := written;
    var j := 0;
    ghost var k := offset;
    while j < |strings|
      invariant 0 <= j <= |strings| && count' == count + j && k == offset + j
      invariant table' == tables[k]
      invariant w == Appended(written, blocks, j) && Wrote(stream, before, start, w)
    {
      SliceAt(values, offset, |strings|, j, k);
      SliceAt(indexes, offset, |strings|, j, k);
      table' := SaveEntry(stream, strings, j, version, hs, table', values, tables, indexes, mine, k, blocks,
                         before, start, w);
      w := w + blocks[j];
      count' := count' + 1;
      j := j + 1;
      k := k + 1;
    }
  }

  /** The bytes of each entry of a namespace, one block per entry. */
  lemma EntryBlocksFor(strings: seq<LocresString>, version: Version, hs: Hashes, indexes: seq<int>)
    returns (blocks: seq<seq<byte>>)
    requires |indexes| == |strings|
    ensures EntryBlocks(blocks, strings, version, hs, indexes)
  {
    blocks := seq(|strings|, i requires 0 <= i < |strings| => EntryBlock(strings, version, hs, indexes, i));
  }

  /**
   * The entries of one namespace, written as EntriesBytes describes them after `head` (what
   * was written for the namespace before its entries).
   */
  method SaveEntries(stream: Stream, strings: seq<LocresString>, version: Version, hs: Hashes,
                     table: seq<StringTableEntry>, count: int,
                     ghost values: seq<Text>, ghost tables: seq<seq<StringTableEntry>>, ghost indexes: seq<int>,
                     ghost offset: nat, ghost before: seq<byte>, ghost start: nat, ghost written: seq<byte>,
                     ghost head: seq<byte>)
    returns (table': seq<StringTableEntry>, count': int)
    requires Wrote(stream, before, start, written + head) && EncodableStrings(strings)
    requires SavePlan(values, tables, indexes)
    requires offset + |strings| <= |values| && values[offset..offset + |strings|] == Values(strings)
    requires table == tables[offset]
    modifies stream
    ensures table' == tables[offset + |strings|] && count' == count + |strings|
    ensures Wrote(stream, before, start,
                  written + (head + EntriesBytes(strings, version, hs, indexes[offset..offset + |strings|])))
  {
    ghost var mine := indexes[offset..offset + |strings|];
    ghost var blocks := EntryBlocksFor(strings, version, hs, mine);
    table', count' := SaveStrings(stream, strings, version, hs, table, count, values, tables, indexes, offset,
                                  blocks, before, start, written + head);
    AppendedEntries(written + head, blocks, strings, version, hs, mine, |strings|);
    TakeAll(strings);
    TakeAll(mine);
    Regroup2(written, head, EntriesBytes(strings, version, hs, mine));
  }

  /**
   * What Save writes for namespace `i`: its head, then its entries with the table indexes of
   * their places among all entries.
   */
  ghost function NamespaceBlock(nss: seq<LocresNamespace>, version: Version, hs: Hashes, indexes: seq<int>,
                                i: nat): seq<byte>
    requires i < |nss| && CountAll(nss[..i]) + |nss[i].Strings| <= |indexes|
  {
    NamespaceHeadBytes(nss[i], version, hs)
      + EntriesBytes(nss[i].Strings, version, hs,
                     indexes[CountAll(nss[..i])..CountAll(nss[..i]) + |nss[i].Strings|])
  }

  /** `written`, then the blocks of the first `i` namespaces. */
  ghost function NamespacesWritten(written: seq<byte>, nss: seq<LocresNamespace>, version: Version, hs: Hashes,
                                   indexes: seq<int>, i: nat): seq<byte>
    requires i <= |nss| && |indexes| == CountAll(nss)
  {
    if i == 0 then written
    else
      CountAllFits(nss, i - 1);
      NamespacesWritten(written, nss, version, hs, indexes, i - 1) + NamespaceBlock(nss, version, hs, indexes, i - 1)
  }

  /** Namespace by namespace, the loop writes what NamespacesBytes describes. */
  lemma {:induction false} NamespacesWrittenBytes(written: seq<byte>, nss: seq<LocresNamespace>, version: Version,
                                                  hs: Hashes, indexes: seq<int>, i: nat)
    requires i <= |nss| && |indexes| == CountAll(nss)
    ensures CountAll(nss[..i]) <= |indexes|
    ensures NamespacesWritten(written, nss, version, hs, indexes, i)
         == written + NamespacesBytes(nss[..i], version, hs, indexes[..CountAll(nss[..i])])
  {
    if i == 0 {
      assert nss[..0] == [];
    } else {
      NamespacesWrittenBytes(written, nss, version, hs, indexes, i - 1);
      NamespacesBytesStep(nss, version, hs, indexes, i - 1);
      Regroup2(written, NamespacesBytes(nss[..i - 1], version, hs, indexes[..CountAll(nss[..i - 1])]),
               NamespaceBlock(nss, version, hs, indexes, i - 1));
    }
  }

  /** The bytes of the first `j + 1` namespaces: those of the first `j`, then namespace `j`'s block. */
  lemma NamespacesBytesStep(nss: seq<LocresNamespace>, version: Version, hs: Hashes, indexes: seq<int>, j: nat)
    requires j < |nss| && |indexes| == CountAll(nss)
    ensures CountAll(nss[..j]) + |nss[j].Strings| == CountAll(nss[..j + 1]) <= |indexes|
    ensures NamespacesBytes(nss[..j + 1], version, hs, indexes[..CountAll(nss[..j + 1])])
         == NamespacesBytes(nss[..j], version, hs, indexes[..CountAll(nss[..j])])
            + NamespaceBlock(nss, version, hs, indexes, j)
  {
    var c, n := CountAll(nss[..j]), |nss[j].Strings|;
    CountAllStep(nss, j);
    CountAllPrefix(nss, j + 1);
    TakeNext(nss, j);
    TakeJoin(indexes, c, c + n);
    NamespacesBytesSnoc(nss[..j], nss[j], version, hs, indexes[..c], indexes[c..c + n]);
  }

  /** The place of namespace `i`'s first entry among the entries of all namespaces. */
  ghost function EntryStart(nss: seq<LocresNamespace>, i: nat): nat
    requires i <= |nss|
  {
    CountAll(nss[..i])
  }

  /**
   * Every namespace's name and entries can be written, and the values of namespace `i` sit in
   * `values` from EntryStart(nss, i) on.
   */
  ghost predicate LaidOut(nss: seq<LocresNamespace>, values: seq<Text>)
  {
    forall i {:trigger EntryStart(nss, i)} :: 0 <= i < |nss| ==>
      |nss[i].Name| < MaxLength && EncodableStrings(nss[i].Strings) &&
      EntryStart(nss, i) + |nss[i].Strings| <= |values| &&
      values[EntryStart(nss, i)..EntryStart(nss, i) + |nss[i].Strings|] == Values(nss[i].Strings)
  }

  /** Writable namespaces are laid out in the values of all their entries. */
  lemma LaidOutValues(nss: seq<LocresNamespace>)
    requires Encodable(nss)
    ensures LaidOut(nss, Values(AllStrings(nss)))
    ensures |Values(AllStrings(nss))| == CountAll(nss)
  {
    CountAllIsLength(nss);
    var values := Values(AllStrings(nss));
    forall i | 0 <= i < |nss|
      ensures |nss[i].Name| < MaxLength && EncodableStrings(nss[i].Strings)
      ensures EntryStart(nss, i) + |nss[i].Strings| <= |values|
      ensures values[EntryStart(nss, i)..EntryStart(nss, i) + |nss[i].Strings|] == Values(nss[i].Strings)
    {
      LaidOutOne(nss, i);
    }
  }

  /** Namespace `i` of writable namespaces can be written and sits at EntryStart(nss, i). */
  lemma LaidOutOne(nss: seq<LocresNamespace>, i: nat)
    requires Encodable(nss) && i < |nss|
    ensures |nss[i].Name| < MaxLength && EncodableStrings(nss[i].Strings)
    ensures EntryStart(nss, i) + |nss[i].Strings| <= |Values(AllStrings(nss))|
    ensures Values(AllStrings(nss))[EntryStart(nss, i)..EntryStart(nss, i) + |nss[i].Strings|]
         == Values(nss[i].Strings)
  {
    EncodableNamespace(nss, i);
    ValuesOfNamespace(nss, i);
  }

  /** Namespace `i` can be written, and its values are those of `values` from EntryStart(nss, i) on. */
  lemma LaidOutAt(nss: seq<LocresNamespace>, values: seq<Text>, i: nat)
    requires LaidOut(nss, values) && i < |nss|
    ensures |nss[i].Name| < MaxLength && EncodableStrings(nss[i].Strings)
    ensures CountAll(nss[..i]) + |nss[i].Strings| <= |values|
    ensures values[CountAll(nss[..i])..CountAll(nss[..i]) + |nss[i].Strings|] == Values(nss[i].Strings)
  {
    assert EntryStart(nss, i) == CountAll(nss[..i]);
  }

  /**
   * Namespace `i` (LocresFile.cs:158-192): name hash (CityHash for version 3, CRC32 from
   * version 2 up), name, entry count, then its entries. `count` is the number of entries
   * written before it, which is also its first entry's place in the plan.
   */
  method SaveNamespace(stream: Stream, nss: seq<LocresNamespace>, i: nat, version: Version, hs: Hashes,
                       table: seq<StringTableEntry>, count: int,
                       ghost values: seq<Text>, ghost tables: seq<seq<StringTableEntry>>, ghost indexes: seq<int>,
                       ghost before: seq<byte>, ghost start: nat, ghost written: seq<byte>)
    returns (table': seq<StringTableEntry>, count': int)
    requires i < |nss| && LaidOut(nss, values) && |indexes| == CountAll(nss) && SavePlan(values, tables, indexes)
    requires count == CountAll(nss[..i]) && count + |nss[i].Strings| <= |values| && table == tables[count]
    requires Wrote(stream, before, start, written)
    modifies stream
    ensures count' == count + |nss[i].Strings| && table' == tables[count']
    ensures Wrote(stream, before, start, written + NamespaceBlock(nss, version, hs, indexes, i))
  {
    LaidOutAt(nss, values, i);
    var ns := nss[i];
    ghost var head := NamespaceHeadBytes(ns, version, hs);
    SaveNamespaceHead(stream, ns, version, hs, before, start, written);
    table', count' := SaveEntries(stream, ns.Strings, version, hs, table, count, values, tables, indexes,
                                  count, before, start, written, head);
  }

  /** The head of a namespace (LocresFile.cs:160-166): name hash, name and entry count. */
  method SaveNamespaceHead(stream: Stream, ns: LocresNamespace, version: Version, hs: Hashes,
                           ghost before: seq<byte>, ghost start: nat, ghost written: seq<byte>)
    requires |ns.Name| < MaxLength && Wrote(stream, before, start, written)
    modifies stream
    ensures Wrote(stream, before, start, written + NamespaceHeadBytes(ns, version, hs))
  {
    if version == OptimizedCityHash64Utf16 {
      Put(stream, UInt32Bytes(hs.city(ns.Name)), before, start, written);
    } else if version >= Optimized {
      Put(stream, UInt32Bytes(hs.crc(ns.Name)), before, start, written);
    } else {
      assert written + [] == written;
    }
    ghost var w1 := written + NameHashBytes(version, ns.Name, hs);
    PutString(stream, ns.Name, false, before, start, w1);
    ghost var w2 := w1 + UnrealStringBytes(ns.Name, false);
    Put(stream, Int32Bytes(|ns.Strings|), before, start, w2);
    RegroupWrites3(written, NameHashBytes(version, ns.Name, hs), UnrealStringBytes(ns.Name, false),
                   Int32Bytes(|ns.Strings|));
  }

  /**
   * The namespace section of Save (LocresFile.cs:155-193): every namespace in order, the
   * string table growing as values are met. Returns the final table, which is Build of all
   * values, and the number of entries written.
   */
  method SaveNamespaces(stream: Stream, nss: seq<LocresNamespace>, version: Version, hs: Hashes,
                        ghost before: seq<byte>, ghost start: nat, ghost written: seq<byte>)
    returns (table: seq<StringTableEntry>, count: int)
    requires Encodable(nss) && Wrote(stream, before, start, written)
    modifies stream
    ensures table == Build(Values(AllStrings(nss))) && count == CountAll(nss)
    ensures Wrote(stream, before, start, written + BodyBytes(nss, version, hs))
  {
    ghost var values := Values(AllStrings(nss));
    ghost var indexes := Indexes(values);
    ghost var tables := PlanOfBuild(values);
    LaidOutValues(nss);
    table, count := SaveEachNamespace(stream, nss, version, hs, values, tables, indexes, before, start, written);
    NamespacesWrittenBytes(written, nss, version, hs, indexes, |nss|);
    TakeAll(nss);
    TakeAll(indexes);
  }

  /**
   * The loop over namespaces of Save (LocresFile.cs:158-193), for namespaces laid out in
   * `values` and a plan of the string table for those values.
   */
  method SaveEachNamespace(stream: Stream, nss: seq<LocresNamespace>, version: Version, hs: Hashes,
                           ghost values: seq<Text>, ghost tables: seq<seq<StringTableEntry>>,
                           ghost indexes: seq<int>, ghost before: seq<byte>, ghost start: nat,
                           ghost written: seq<byte>)
    returns (table: seq<StringTableEntry>, count: int)
    requires LaidOut(nss, values) && |values| == CountAll(nss) && SavePlan(values, tables, indexes)
    requires Wrote(stream, before, start, written)
    modifies stream
    ensures table == tables[|values|] && count == |values|
    ensures Wrote(stream, before, start, NamespacesWritten(written, nss, version, hs, indexes, |nss|))
  {
    table, count := [], 0;
    ghost var w := written;
    var i := 0;
    while i < |nss|
      invariant 0 <= i <= |nss| && count == CountAll(nss[..i]) <= |values| && table == tables[count]
      invariant w == NamespacesWritten(written, nss, version, hs, indexes, i) && Wrote(stream, before, start, w)
    {
      CountAllStep(nss, i);
      CountAllFits(nss, i);
      table, count := SaveNamespace(stream, nss, i, version, hs, table, count, values, tables, indexes,
                                    before, start, w);
      w := w + NamespaceBlock(nss, version, hs, indexes, i);
      i := i + 1;
    }
    TakeAll(nss);
  }

  // ---------------------------------------------------------------- the string table

  /** Slot `k` of the string table as Save writes it: its text, then its reference count from Optimized up. */
  ghost function SlotBytes(table: seq<StringTableEntry>, version: Version, k: nat): seq<byte>
    requires k < |table|
  {
    UnrealStringBytes(table[k].Text, false) + (if version >= Optimized then Int32Bytes(table[k].RefCount) else [])
  }

  /** `blocks` holds the bytes of each slot of the table, in order. */
  ghost predicate SlotBlocks(blocks: seq<seq<byte>>, table: seq<StringTableEntry>, version: Version)
  {
    |blocks| == |table| &&
    forall k {:trigger SlotBytes(table, version, k)} :: 0 <= k < |blocks| ==> blocks[k] == SlotBytes(table, version, k)
  }

  /** The bytes of each slot, one block per slot. */
  lemma SlotBlocksFor(table: seq<StringTableEntry>, version: Version) returns (blocks: seq<seq<byte>>)
    ensures SlotBlocks(blocks, table, version)
  {
    blocks := seq(|table|, k requires 0 <= k < |table| => SlotBytes(table, version, k));
  }

  /** Slot by slot, the loop writes what TableEntriesBytes describes. */
  lemma {:induction false} AppendedSlots(written: seq<byte>, blocks: seq<seq<byte>>, table: seq<StringTableEntry>,
                                         version: Version, k: nat)
    requires SlotBlocks(blocks, table, version) && k <= |blocks|
    ensures Appended(written, blocks, k) == written + TableEntriesBytes(table[..k], version)
  {
    if k == 0 {
      assert table[..0] == [];
    } else {
      AppendedSlots(written, blocks, table, version, k - 1);
      assert blocks[k - 1] == SlotBytes(table, version, k - 1);
      TakeSnoc(table, k);
      TableEntriesBytesSnoc(table[..k - 1], table[k - 1], version);
      Regroup2(written, TableEntriesBytes(table[..k - 1], version), blocks[k - 1]);
    }
  }

  /** One slot of the string table (LocresFile.cs:203-204 and 211): its text, then its reference count from Optimized up. */
  method SaveSlot(stream: Stream, table: seq<StringTableEntry>, k: nat, version: Version, ghost blocks: seq<seq<byte>>,
                  ghost before: seq<byte>, ghost start: nat, ghost written: seq<byte>)
    requires k < |table| && |table[k].Text| < MaxLength && SlotBlocks(blocks, table, version)
    requires Wrote(stream, before, start, written)
    modifies stream
    ensures Wrote(stream, before, start, written + blocks[k])
  {
    assert blocks[k] == SlotBytes(table, version, k);
    ghost var text := UnrealStringBytes(table[k].Text, false);
    PutString(stream, table[k].Text, false, before, start, written);
    if version >= Optimized {
      Put(stream, Int32Bytes(table[k].RefCount), before, start, written + text);
      Regroup2(written, text, Int32Bytes(table[k].RefCount));
    } else {
      assert text + [] == text;
    }
  }

  /**
   * The string table section of Save (LocresFile.cs:197-213): the slot count, then every slot.
   * The source tests the version once, around two loops; here the test sits in SaveSlot.
   */
  method SaveTable(stream: Stream, table: seq<StringTableEntry>, version: Version,
                   ghost before: seq<byte>, ghost start: nat, ghost written: seq<byte>)
    requires ShortTexts(Texts(table)) && Wrote(stream, before, start, written)
    modifies stream
    ensures Wrote(stream, before, start, written + (Int32Bytes(|table|) + TableEntriesBytes(table, version)))
  {
    Put(stream, Int32Bytes(|table|), before, start, written);
    ghost var w0 := written + Int32Bytes(|table|);
    ghost var blocks := SlotBlocksFor(table, version);
    SaveSlots(stream, table, version, blocks, before, start, w0);
    AppendedSlots(w0, blocks, table, version, |table|);
    TakeAll(table);
    Regroup2(written, Int32Bytes(|table|), TableEntriesBytes(table, version));
  }

  /** The loops over the slots of the string table (LocresFile.cs:199-213). */
  method SaveSlots(stream: Stream, table: seq<StringTableEntry>, version: Version, ghost blocks: seq<seq<byte>>,
                   ghost before: seq<byte>, ghost start: nat, ghost written: seq<byte>)
    requires ShortTexts(Texts(table)) && SlotBlocks(blocks, table, version) && Wrote(stream, before, start, written)
    modifies stream
    ensures Wrote(stream, before, start, Appended(written, blocks, |table|))
  {
    ghost var w := written;
    var k := 0;
    while k < |table|
      invariant 0 <= k <= |table| && w == Appended(written, blocks, k) && Wrote(stream, before, start, w)
    {
      assert Texts(table)[k] == table[k].Text;
      SaveSlot(stream, table, k, version, blocks, before, start, w);
      w := w + blocks[k];
      k := k + 1;
    }
  }

  // ---------------------------------------------------------------- legacy files

  /** The bytes of entry `j` of a legacy namespace. */
  ghost function LegacyEntryBlock(strings: seq<LocresString>, j: nat): seq<byte>
    requires j < |strings|
  {
    LegacyEntryBytes(strings[j])
  }

  /** `blocks` holds the bytes of each entry of a legacy namespace, in order. */
  ghost predicate LegacyEntryBlocks(blocks: seq<seq<byte>>, strings: seq<LocresString>)
  {
    |blocks| == |strings| &&
    forall j {:trigger LegacyEntryBlock(strings, j)} :: 0 <= j < |blocks| ==> blocks[j] == LegacyEntryBlock(strings, j)
  }

  /** The bytes of each legacy entry, one block per entry. */
  lemma LegacyEntryBlocksFor(strings: seq<LocresString>) returns (blocks: seq<seq<byte>>)
    ensures LegacyEntryBlocks(blocks, strings)
  {
    blocks := seq(|strings|, j requires 0 <= j < |strings| => LegacyEntryBlock(strings, j));
  }

  /** Entry by entry, the legacy loop writes what LegacyEntriesBytes describes. */
  lemma {:induction false} AppendedLegacyEntries(written: seq<byte>, blocks: seq<seq<byte>>,
                                                 strings: seq<LocresString>, j: nat)
    requires LegacyEntryBlocks(blocks, strings) && j <= |blocks|
    ensures Appended(written, blocks, j) == written + LegacyEntriesBytes(strings[..j])
  {
    if j == 0 {
      assert strings[..0] == [];
    } else {
      AppendedLegacyEntries(written, blocks, strings, j - 1);
      assert blocks[j - 1] == LegacyEntryBlock(strings, j - 1);
      TakeSnoc(strings, j);
      LegacyEntriesBytesSnoc(strings[..j - 1], strings[j - 1]);
      Regroup2(written, LegacyEntriesBytes(strings[..j - 1]), blocks[j - 1]);
    }
  }

  /** A legacy entry (LocresFile.cs:236-238): key, source-string hash and value, inline. */
  method SaveLegacyEntry(stream: Stream, strings: seq<LocresString>, j: nat, ghost blocks: seq<seq<byte>>,
                         ghost before: seq<byte>, ghost start: nat, ghost written: seq<byte>)
    requires j < |strings| && EncodableString(strings[j]) && LegacyEntryBlocks(blocks, strings)
    requires Wrote(stream, before, start, written)
    modifies stream
    ensures Wrote(stream, before, start, written + blocks[j])
  {
    var e := strings[j];
    assert blocks[j] == LegacyEntryBlock(strings, j);
    PutString(stream, e.Key, false, before, start, written);
    ghost var w1 := written + UnrealStringBytes(e.Key, false);
    Put(stream, UInt32Bytes(e.SourceStringHash), before, start, w1);
    ghost var w2 := w1 + UInt32Bytes(e.SourceStringHash);
    PutString(stream, e.Value, false, before, start, w2);
    RegroupWrites3(written, UnrealStringBytes(e.Key, false), UInt32Bytes(e.SourceStringHash),
                   UnrealStringBytes(e.Value, false));
  }

  /** The loop over the entries of a legacy namespace (LocresFile.cs:234-239). */
  method SaveLegacyEntries(stream: Stream, strings: seq<LocresString>, ghost blocks: seq<seq<byte>>,
                           ghost before: seq<byte>, ghost start: nat, ghost written: seq<byte>)
    requires EncodableStrings(strings) && LegacyEntryBlocks(blocks, strings)
    requires Wrote(stream, before, start, written)
    modifies stream
    ensures Wrote(stream, before, start, Appended(written, blocks, |strings|))
  {
    ghost var w := written;
    var j := 0;
    while j < |strings|
      invariant 0 <= j <= |strings| && w == Appended(written, blocks, j) && Wrote(stream, before, start, w)
    {
      SaveLegacyEntry(stream, strings, j, blocks, before, start, w);
      w := w + blocks[j];
      j := j + 1;
    }
  }

  /** The bytes of legacy namespace `i`: its name, always as UTF-16, its entry count and its entries. */
  ghost function LegacyNamespaceBlock(nss: seq<LocresNamespace>, i: nat): seq<byte>
    requires i < |nss|
  {
    UnrealStringBytes(nss[i].Name, true) + Int32Bytes(|nss[i].Strings|) + LegacyEntriesBytes(nss[i].Strings)
  }

  /** `blocks` holds the bytes of each legacy namespace, in order. */
  ghost predicate LegacyNamespaceBlocks(blocks: seq<seq<byte>>, nss: seq<LocresNamespace>)
  {
    |blocks| == |nss| &&
    forall i {:trigger LegacyNamespaceBlock(nss, i)} :: 0 <= i < |blocks| ==> blocks[i] == LegacyNamespaceBlock(nss, i)
  }

  /** The bytes of each legacy namespace, one block per namespace. */
  lemma LegacyNamespaceBlocksFor(nss: seq<LocresNamespace>) returns (blocks: seq<seq<byte>>)
    ensures LegacyNamespaceBlocks(blocks, nss)
  {
    blocks := seq(|nss|, i requires 0 <= i < |nss| => LegacyNamespaceBlock(nss, i));
  }

  /** Namespace by namespace, the legacy loop writes what LegacyNamespacesBytes describes. */
  lemma {:induction false} AppendedLegacyNamespaces(written: seq<byte>, blocks: seq<seq<byte>>,
                                                    nss: seq<LocresNamespace>, i: nat)
    requires LegacyNamespaceBlocks(blocks, nss) && i <= |blocks|
    ensures Appended(written, blocks, i) == written + LegacyNamespacesBytes(nss[..i])
  {
    if i == 0 {
      assert nss[..0] == [];
    } else {
      AppendedLegacyNamespaces(written, blocks, nss, i - 1);
      assert blocks[i - 1] == LegacyNamespaceBlock(nss, i - 1);
      TakeSnoc(nss, i);
      LegacyNamespacesBytesSnoc(nss[..i - 1], nss[i - 1]);
      Regroup2(written, LegacyNamespacesBytes(nss[..i - 1]), blocks[i - 1]);
    }
  }

  /** A legacy namespace (LocresFile.cs:231-239): name forced to UTF-16, entry count, entries. */
  method SaveLegacyNamespace(stream: Stream, nss: seq<LocresNamespace>, i: nat, ghost blocks: seq<seq<byte>>,
                             ghost before: seq<byte>, ghost start: nat, ghost written: seq<byte>)
    requires i < |nss| && |nss[i].Name| < MaxLength && EncodableStrings(nss[i].Strings)
    requires LegacyNamespaceBlocks(blocks, nss) && Wrote(stream, before, start, written)
    modifies stream
    ensures Wrote(stream, before, start, written + blocks[i])
  {
    var ns := nss[i];
    assert blocks[i] == LegacyNamespaceBlock(nss, i);
    PutString(stream, ns.Name, true, before, start, written);
    ghost var w1 := written + UnrealStringBytes(ns.Name, true);
    Put(stream, Int32Bytes(|ns.Strings|), before, start, w1);
    ghost var w2 := w1 + Int32Bytes(|ns.Strings|);
    ghost var entries := LegacyEntryBlocksFor(ns.Strings);
    SaveLegacyEntries(stream, ns.Strings, entries, before, start, w2);
    AppendedLegacyEntries(w2, entries, ns.Strings, |ns.Strings|);
    TakeAll(ns.Strings);
    RegroupWrites3(written, UnrealStringBytes(ns.Name, true), Int32Bytes(|ns.Strings|),
                   LegacyEntriesBytes(ns.Strings));
  }

  /** The loop over the namespaces of SaveLegacy (LocresFile.cs:229-240). */
  method SaveLegacyNamespaces(stream: Stream, nss: seq<LocresNamespace>, ghost blocks: seq<seq<byte>>,
                              ghost before: seq<byte>, ghost start: nat, ghost written: seq<byte>)
    requires Encodable(nss) && LegacyNamespaceBlocks(blocks, nss) && Wrote(stream, before, start, written)
    modifies stream
    ensures Wrote(stream, before, start, Appended(written, blocks, |nss|))
  {
    ghost var w := written;
    var i := 0;
    while i < |nss|
      invariant 0 <= i <= |nss| && w == Appended(written, blocks, i) && Wrote(stream, before, start, w)
    {
      EncodableNamespace(nss, i);
      SaveLegacyNamespace(stream, nss, i, blocks, before, start, w);
      w := w + blocks[i];
      i := i + 1;
    }
  }

  /**
   * SaveLegacy (LocresFile.cs:225-241): the namespace count, then every namespace with its
   * values inline; no magic, no header fields, no string table.
   */
  method SaveLegacy(stream: Stream, nss: seq<LocresNamespace>,
                    ghost before: seq<byte>, ghost start: nat, ghost written: seq<byte>)
    requires Encodable(nss) && Wrote(stream, before, start, written)
    modifies stream
    ensures Wrote(stream, before, start, written + LegacyImage(nss))
  {
    Put(stream, Int32Bytes(|nss|), before, start, written);
    ghost var w0 := written + Int32Bytes(|nss|);
    ghost var blocks := LegacyNamespaceBlocksFor(nss);
    SaveLegacyNamespaces(stream, nss, blocks, before, start, w0);
    AppendedLegacyNamespaces(w0, blocks, nss, |nss|);
    TakeAll(nss);
    Regroup2(written, Int32Bytes(|nss|), LegacyNamespacesBytes(nss));
  }

  // ---------------------------------------------------------------- the header

  /**
   * The header with placeholders (LocresFile.cs:145-153): magic, version byte, a zero
   * string-table offset, a zero entry count from Optimized up, and the namespace count.
   * Returns the position of the offset field, read after the version byte.
   */
  method SaveHeader(stream: Stream, version: Version, namespaceCount: int, ghost before: seq<byte>, ghost start: nat)
    returns (arrayOffset: nat)
    requires Wrote(stream, before, start, [])
    modifies stream
    ensures arrayOffset == start + OffsetPosition
    ensures Wrote(stream, before, start, HeaderBytes(version, 0, 0, namespaceCount))
  {
    ghost var nothing: seq<byte> := [];
    var versionByte: byte := version;
    Put(stream, LOCRES_MAGIC, before, start, nothing);
    assert nothing + LOCRES_MAGIC == LOCRES_MAGIC;
    Put(stream, [versionByte], before, start, LOCRES_MAGIC);
    arrayOffset := stream.Position;
    ghost var head: seq<byte> := LOCRES_MAGIC + [versionByte];
    Put(stream, Int64Bytes(0), before, start, head);
    ghost var fields: seq<byte> := head + Int64Bytes(0);
    SaveCountFields(stream, version, namespaceCount, before, start, fields);
    Regroup2(fields, EntryCountField(version, 0), Int32Bytes(namespaceCount));
  }

  /** The last two header fields (LocresFile.cs:150-153): a zero entry count from Optimized up, the namespace count. */
  method SaveCountFields(stream: Stream, version: Version, namespaceCount: int,
                         ghost before: seq<byte>, ghost start: nat, ghost written: seq<byte>)
    requires Wrote(stream, before, start, written)
    modifies stream
    ensures Wrote(stream, before, start, written + (EntryCountField(version, 0) + Int32Bytes(namespaceCount)))
  {
    if version >= Optimized {
      Put(stream, Int32Bytes(0), before, start, written);
      Put(stream, Int32Bytes(namespaceCount), before, start, written + Int32Bytes(0));
      Regroup2(written, Int32Bytes(0), Int32Bytes(namespaceCount));
    } else {
      Put(stream, Int32Bytes(namespaceCount), before, start, written);
      assert EntryCountField(version, 0) + Int32Bytes(namespaceCount) == Int32Bytes(namespaceCount);
    }
  }

  /** A header and what follows it, seen as the bytes before the offset, the offset and the rest. */
  lemma HeaderFields(version: Version, tableOffset: int, entryCount: int, namespaceCount: int, rest: seq<byte>)
    ensures HeaderBytes(version, tableOffset, entryCount, namespaceCount) + rest
         == (LOCRES_MAGIC + [version]) + Int64Bytes(tableOffset)
            + (EntryCountField(version, entryCount) + (Int32Bytes(namespaceCount) + rest))
  {
    Regroup3(LOCRES_MAGIC + [version] + Int64Bytes(tableOffset), EntryCountField(version, entryCount),
             Int32Bytes(namespaceCount), rest);
  }

  /** Replacing the middle part of a concatenation by one of the same length. */
  lemma Replace(a: seq<byte>, x: seq<byte>, y: seq<byte>, b: seq<byte>)
    requires |x| == |y|
    ensures |a| + |x| <= |a + x + b|
    ensures (a + x + b)[..|a|] + y + (a + x + b)[|a| + |x|..] == a + y + b
  {
    assert (a + x + b)[..|a|] == a;
    assert (a + x + b)[|a| + |x|..] == b;
  }

  /**
   * Filling in the header (LocresFile.cs:215-219): back at the offset field, the string-table
   * offset, then from Optimized up the entry count; the rest of the file is untouched.
   */
  method FillHeader(stream: Stream, arrayOffset: nat, version: Version, tableOffset: int, entryCount: int,
                    ghost namespaceCount: int, ghost before: seq<byte>, ghost start: nat, ghost rest: seq<byte>)
    requires stream.Valid() && start <= |before| && arrayOffset == start + OffsetPosition
    requires stream.Data == Overwrite(before, start, HeaderBytes(version, 0, 0, namespaceCount) + rest)
    modifies stream
    ensures stream.Valid()
    ensures stream.Data == Overwrite(before, start, HeaderBytes(version, tableOffset, entryCount, namespaceCount) + rest)
  {
    ghost var head := LOCRES_MAGIC + [version];
    ghost var placeholder := HeaderBytes(version, 0, 0, namespaceCount) + rest;
    HeaderFields(version, 0, 0, namespaceCount, rest);
    HeaderFields(version, tableOffset, 0, namespaceCount, rest);
    Replace(head, Int64Bytes(0), Int64Bytes(tableOffset),
            EntryCountField(version, 0) + (Int32Bytes(namespaceCount) + rest));
    OverwriteInside(before, start, placeholder, OffsetPosition, Int64Bytes(tableOffset));
    stream.Seek(arrayOffset);
    stream.Write(Int64Bytes(tableOffset));
    if version >= Optimized {
      ghost var patched := HeaderBytes(version, tableOffset, 0, namespaceCount) + rest;
      ghost var fields := head + Int64Bytes(tableOffset);
      HeaderFields(version, tableOffset, entryCount, namespaceCount, rest);
      Regroup2(fields, Int32Bytes(0), Int32Bytes(namespaceCount) + rest);
      Regroup2(fields, Int32Bytes(entryCount), Int32Bytes(namespaceCount) + rest);
      Replace(fields, Int32Bytes(0), Int32Bytes(entryCount), Int32Bytes(namespaceCount) + rest);
      OverwriteInside(before, start, patched, OffsetPosition + 8, Int32Bytes(entryCount));
      stream.Write(Int32Bytes(entryCount));
    } else {
      assert HeaderBytes(version, tableOffset, entryCount, namespaceCount)
          == HeaderBytes(version, tableOffset, 0, namespaceCount);
    }
  }

  /**
   * What Save has written once the string table is out, seen as the placeholder header and
   * the rest; the table starts where TableOffset says, and the saved image is the filled-in
   * header and the same rest.
   */
  lemma SavedParts(nss: seq<LocresNamespace>, version: Version, hs: Hashes, start: nat)
    ensures var header := HeaderBytes(version, 0, 0, |nss|);
      var body := BodyBytes(nss, version, hs);
      var table := Build(Values(AllStrings(nss)));
      header + body + (Int32Bytes(|table|) + TableEntriesBytes(table, version))
        == header + (body + TableBytes(nss, version))
      && TableOffset(nss, version, hs, start) == start + |header| + |body|
      && SavedImage(nss, version, hs, start)
        == HeaderBytes(version, TableOffset(nss, version, hs, start), CountAll(nss), |nss|)
           + (body + TableBytes(nss, version))
  {
    var body := BodyBytes(nss, version, hs);
    var table := TableBytes(nss, version);
    Regroup2(HeaderBytes(version, 0, 0, |nss|), body, table);
    Regroup2(HeaderBytes(version, TableOffset(nss, version, hs, start), CountAll(nss), |nss|), body, table);
  }
}
