# UnrealLocres in Dafny

A model of the core of UnrealLocres, a C# library and tool that reads and writes the `.locres`
localization resource files of Unreal Engine. The model covers five parts:

- **LocresFile**: a list of namespaces together with the version it was loaded as.
  - `Load` parses the four file versions: Legacy, Compact, Optimized, and Optimized with CityHash64/UTF-16 hashes.
  - `Save` and `SaveLegacy` write them back, including the string table that stores each value once.
  - `TotalCount` sums the entry counts.
  - `CityHash64_utf16_to_uint32` gives the 32-bit key hash.
- **BinaryWriter and BinaryReader extensions**: the length-prefixed "Unreal string", in either ASCII or UTF-16LE.
- **CityHash**: the CityHash32 and CityHash64 functions, with their helpers.
- **LocresString**: the entry record and its constructor checks.
- **BaseConverter**: `Export` flattens a file into translation lines whose key is `namespace/key`. `Import` applies translated lines back to a file.

The model has these modules:

| module | file | what it holds |
|---|---|---|
| `Wrappers` | wrappers.dfy | `Option`, `Result` and `Outcome`. |
| `Binary` | binary.dfy | Little-endian integers, the reads of a `BinaryReader`, and the `Stream` class (a seekable byte buffer that writes overwrite in place). |
| `UnrealString` | unreal_string.dfy | ASCII and UTF-16LE codecs, and `WriteUnrealString` / `ReadUnrealString`. |
| `CityHash` | cityhash.dfy | CityHash on `seq<bv8>`. |
| `LocresTypes` | locres_types.dfy | Versions, `LocresString`, `LocresNamespace`. |
| `StringTable` | string_table.dfy | The string table Save builds. |
| `LocresFormat` | locres_format.dfy | The byte layout Save writes, and the parser Load implements, as functions. |
| `Codec` | locres_file.dfy | The write loops of Save and SaveLegacy, as methods on a `Stream`. |
| `Reading` | reading.dfy | The read loops of Load. |
| `LocresLib` | locres_lib.dfy | The `LocresFile` class. |
| `LocresRoundTrip` | locres_roundtrip.dfy | "Save then Load gives back the namespaces". |
| `Converter` | converter.dfy | Export and Import. |

Each method that works step by step (a read loop, a write loop, a hash loop, an import loop) is
proved against a specification function of the same module. The properties the library
promises are then proved about those functions:

- saving and then loading a file gives back its version and namespaces;
- the string table holds each value once, in first-occurrence order, with exact reference counts;
- Unreal strings read back what was written;
- Import translates exactly the entries whose key has a filled-in line, and does so once per line.

Two external functions are parameters of the model rather than part of it:

- `Crc.StrCrc32` is not part of this model. Save takes it as a function argument (`crc`), and the round-trip lemmas hold for every such function.
- The reading and writing of CSV and PO files are not part of this model. Import takes the already parsed lines.

## Model

| member | source | states |
|---|---|---|
| Binary.UInt32RoundTrip | LocresLib/LocresFile.cs:107 | Reading back the four little-endian bytes written for a uint32 gives the same value. |
| Binary.UInt32BytesRoundTrip | LocresLib/LocresFile.cs:176 | Any four bytes are the encoding of the uint32 they decode to, so the 4-byte codec is a bijection. |
| Binary.SignedValue | LocresLib/LocresFile.cs:61 | A uint32 bit pattern read as a C# int is in int32 range and congruent to it modulo 2^32. |
| Binary.WrapInt32 | LocresLib/LocresFile.cs:24 | C# int wrap-around: the result is in int32 range, equals an in-range input, and differs from the input by a multiple of 2^32. |
| Binary.WrapAdd | LocresLib/LocresFile.cs:22-25 | Wrapping after each addition is the same as wrapping the exact sum once. |
| Binary.Int32RoundTrip | LocresLib/LocresFile.cs:153 | Writing an int32 and reading it back gives the same value. |
| Binary.UInt64RoundTrip | LocresLib/LocresFile.cs:57 | The eight-byte little-endian codec round-trips every uint64. |
| Binary.Int64RoundTrip | LocresLib/LocresFile.cs:216 | Writing a long (the string-table offset) and reading it back gives the same value. |
| Binary.Remaining | LocresLib/LocresFile.cs:59 | Setting the stream position leaves the bytes from that position on: none if it is past the end. |
| Binary.ReadBytes | LocresLib/LocresFile.cs:41 | A negative count raises ArgumentOutOfRange. Otherwise the read takes min(count, available) bytes, and what it took followed by what is left is the input. |
| Binary.ReadByte | LocresLib/LocresFile.cs:45 | Succeeds exactly when a byte remains. The byte read followed by the rest is the input. |
| Binary.ReadUInt32 | LocresLib/LocresFile.cs:107 | Succeeds exactly when four bytes remain, and consumes exactly four. |
| Binary.ReadInt32 | LocresLib/LocresFile.cs:61 | Succeeds exactly when four bytes remain, gives an int32 and consumes exactly four. |
| Binary.ReadInt64 | LocresLib/LocresFile.cs:57 | Succeeds exactly when eight bytes remain, gives an int64 and consumes exactly eight. |
| Binary.ReadUInt32Of | LocresLib/LocresFile.cs:107 | ReadUInt32 on the encoding of u followed by any bytes gives u and exactly those bytes. |
| Binary.ReadInt32Of | LocresLib/LocresFile.cs:95 | ReadInt32 on the encoding of an int32 followed by any bytes gives it back and exactly those bytes. |
| Binary.ReadInt32Skips | LocresLib/LocresFile.cs:69 | Reading the four bytes written for any int, even one out of range, consumes exactly them. This covers the dropped reference count. |
| Binary.ReadInt64Of | LocresLib/LocresFile.cs:57 | ReadInt64 on the encoding of an int64 followed by any bytes gives it back and exactly those bytes. |
| Binary.Overwrite | LocresLib/LocresFile.cs:216 | A write at a position inside the stream extends it only by what runs past the end. |
| Binary.OverwriteAt | LocresLib/LocresFile.cs:215-216 | After a write, each byte is the written byte inside the written range and the old byte outside it. |
| Binary.OverwriteSplit | LocresLib/LocresFile.cs:145-221 | A write at `pos` yields the old bytes before `pos`, the written bytes, then the old bytes after them. |
| Binary.OverwriteFromStart | LocresLib/LocresFile.cs:227 | A write at position 0 yields the written bytes, then the old bytes past them. |
| Binary.OverwriteSequential | LocresLib/LocresFile.cs:145-148 | Two consecutive writes equal one write of their concatenation. |
| Binary.OverwriteInside | LocresLib/LocresFile.cs:215-219 | Seeking back inside what was written and overwriting patches only that range of the written block. |
| Binary.Stream.constructor | LocresLibTests/LocalizationResourceFileTests.cs:23 | A new stream holds the given bytes at position 0, with the given capabilities. |
| Binary.Stream.Write | LocresLib/LocresFile.cs:145 | A write overwrites or extends the data at the position, and advances the position by the number of bytes written. |
| Binary.Stream.Seek | LocresLib/LocresFile.cs:215 | A seek moves the position and leaves the data unchanged. |
| UnrealString.IsAsciiString | LocresLib/IO/BinaryWriterExtensions.cs:10-15 | True exactly when every code unit is at most 127. |
| UnrealString.AsciiRoundTrip | LocresLib/IO/BinaryWriterExtensions.cs:23 | ASCII-decoding the ASCII encoding of an ASCII string gives it back. |
| UnrealString.Utf16BytesAppend | LocresLib/IO/BinaryWriterExtensions.cs:29 | The UTF-16LE encoding of a concatenation is the concatenation of the encodings. |
| UnrealString.AsciiBytesAppend | LocresLib/IO/BinaryWriterExtensions.cs:23 | The ASCII encoding of a concatenation is the concatenation of the encodings. |
| UnrealString.AsciiTerminated | LocresLib/IO/BinaryWriterExtensions.cs:19-21 | Appending the terminating NUL does not change whether the string is ASCII. |
| UnrealString.Utf16RoundTrip | LocresLib/IO/BinaryReaderExtensions.cs:20 | UTF-16LE decoding of the UTF-16LE encoding gives back every string. |
| UnrealString.AsciiString | LocresLib/IO/BinaryReaderExtensions.cs:16 | ASCII decoding maps each byte to one code unit. |
| UnrealString.Utf16String | LocresLib/IO/BinaryReaderExtensions.cs:20 | UTF-16LE decoding maps each byte pair to one code unit, and an odd trailing byte to one more. |
| UnrealString.TrimEndNul | LocresLib/IO/BinaryReaderExtensions.cs:26 | The result is a prefix of the input that does not end in NUL, and only NULs were removed. |
| UnrealString.WriteUnrealString | LocresLib/IO/BinaryWriterExtensions.cs:17-33 | The writer receives the Unreal-string encoding at its position, and its position advances by that length. |
| UnrealString.NarrowLayout | LocresLib/IO/BinaryWriterExtensions.cs:21-26 | An ASCII string not forced to Unicode is written as the int32 byte count (length + 1), its ASCII bytes, then one NUL. |
| UnrealString.WideLayout | LocresLib/IO/BinaryWriterExtensions.cs:27-32 | Any other string is written as -(length + 1), its UTF-16LE bytes, then two NUL bytes. |
| UnrealString.EmptyStringBytes | LocresLib/IO/BinaryWriterExtensions.cs:19-26 | The empty string is written as the count 1 and a single NUL. |
| UnrealString.UnicodeStringBytes | LocresLibTests/IO/BinaryWriterExtensionsTests.cs:15-30 | "유니코드" is written as exactly the 14 bytes the writer test expects. |
| UnrealString.ReadUnrealString | LocresLib/IO/BinaryReaderExtensions.cs:10-27 | A successful read gives a text that does not end in NUL, and consumes at least the four-byte length. |
| UnrealString.ReadNarrow | LocresLib/IO/BinaryReaderExtensions.cs:14-16 | A positive length n reads n bytes as ASCII and trims the trailing NULs. |
| UnrealString.ReadWide | LocresLib/IO/BinaryReaderExtensions.cs:18-20 | A negative length -n reads 2n bytes as UTF-16LE and trims the trailing NULs. |
| UnrealString.ReadWideWrapsToEmpty | LocresLib/IO/BinaryReaderExtensions.cs:20 | The length int.MinValue: `length * -2` wraps to 0 in C#, so the read gives the empty string and consumes only the length. |
| UnrealString.ReadWideNegativeCount | LocresLib/IO/BinaryReaderExtensions.cs:20 | Lengths from int.MinValue + 1 to -2^30: the wrapped byte count is negative, and the read raises ArgumentOutOfRange. |
| UnrealString.ReadZeroLength | LocresLib/IO/BinaryReaderExtensions.cs:22-24 | A zero length gives the empty string and consumes only the length. |
| UnrealString.TrimTerminated | LocresLib/IO/BinaryReaderExtensions.cs:26 | Trimming NULs from a string plus its terminator gives back the string, when it does not end in NUL itself. |
| UnrealString.ReadWriteRoundTrip | LocresLib/IO/BinaryWriterExtensions.cs:17-33 | Reading an Unreal string back gives the written text and exactly the bytes after it, in both encodings. |
| UnrealString.ReadTestVector | LocresLibTests/IO/BinaryReaderExtensionTests.cs:15-28 | The reader test's bytes read as "유니코드", then as "AsCiI". The second string declares 6 bytes but only 5 remain. |
| UnrealString.ReadUnicode | LocresLibTests/IO/BinaryReaderExtensionTests.cs:17-23 | The 14 UTF-16 bytes of the test read as "유니코드" before any following bytes. |
| UnrealString.ReadShortAscii | LocresLibTests/IO/BinaryReaderExtensionTests.cs:25-26 | A short read of an ASCII string gives the five available characters. |
| CityHash.ByteSwapUInt32Reverses | LocresLib/CityHash.cs:74-81 | Byte k of the swapped word is byte 3 - k of the input. |
| CityHash.ByteSwapUInt64Reverses | LocresLib/CityHash.cs:83-94 | Byte k of the swapped word is byte 7 - k of the input. |
| CityHash.ByteSwapUInt32Involution | LocresLib/CityHash.cs:74-81 | Swapping twice gives back the word. |
| CityHash.ByteSwapUInt64Involution | LocresLib/CityHash.cs:83-94 | Swapping twice gives back the word. |
| CityHash.Fetch32 | LocresLib/CityHash.cs:107-116 | Byte k of the fetched word is byte index + k of the input, or index + 3 - k when big-endian. |
| CityHash.Fetch64 | LocresLib/CityHash.cs:96-105 | Byte k of the fetched word is byte index + k of the input, or index + 7 - k when big-endian. |
| CityHash.Rotate32 | LocresLib/CityHash.cs:129-133 | A shift of 0 returns the value unchanged. |
| CityHash.Rotate32RotatesRight | LocresLib/CityHash.cs:129-133 | For every shift count below 32, the shift-and-or formula is a right rotation. |
| CityHash.Rotate | LocresLib/CityHash.cs:284-288 | A shift of 0 returns the value unchanged. |
| CityHash.RotateRotatesRight | LocresLib/CityHash.cs:284-288 | For every shift count below 64, the shift-and-or formula is a right rotation. |
| CityHash.Swap | LocresLib/CityHash.cs:141-146 | The two values are exchanged. |
| CityHash.Permute3 | LocresLib/CityHash.cs:135-139 | The three values rotate: (a, b, c) becomes (c, a, b). |
| CityHash.HashLen16IsWithKMul | LocresLib/CityHash.cs:295-309 | The two-argument HashLen16 is the three-argument one with the multiplier KMul. |
| CityHash.SignExtend | LocresLib/CityHash.cs:179 | The `(uint)(sbyte)` cast keeps the low byte and fills the upper 24 bits with the sign bit. |
| CityHash.Hash32Len0To4 | LocresLib/CityHash.cs:172-183 | The loop over at most four bytes computes the specified short hash. |
| CityHash.Iterations32 | LocresLib/CityHash.cs:240 | The number of 20-byte rounds is at least one, and all rounds start inside the input. |
| CityHash.CityHash32 | LocresLib/CityHash.cs:207-280 | The hash dispatches by length to the 0-4, 5-12, 13-24 and long variants. |
| CityHash.Iterations64 | LocresLib/CityHash.cs:442 | The number of 64-byte chunks is at least one, and all chunks start inside the input. |
| CityHash.CityHash64Empty | LocresLib/CityHash.cs:311-338 | The empty input hashes to K2. |
| CityHash.CityHash64 | LocresLib/CityHash.cs:415-459 | The hash dispatches by length to the 0-16, 17-32, 33-64 and long variants. |
| CityHash.CityHash64WithSeeds | LocresLib/CityHash.cs:494-497 | HashLen16 of (CityHash64 - seed0, seed1). |
| CityHash.CityHash64WithSeed | LocresLib/CityHash.cs:475-478 | The two-seed hash with K2 as the first seed. |
| LocresTypes.NewLocresString | LocresLib/LocresString.cs:17-22 | A null key raises ArgumentNull("key"). Otherwise a null value raises ArgumentNull("value"). Otherwise the entry holds exactly the given key, value and hash. |
| LocresTypes.CountAllIsLength | LocresLib/LocresFile.cs:18-27 | The summed entry count equals the number of entries across all namespaces. |
| LocresTypes.AllStringsAppend | LocresLib/LocresFile.cs:23-24 | Entries and counts of two namespace lists placed one after the other add up. |
| LocresTypes.ValuesAppend | LocresLib/LocresFile.cs:168 | The values of concatenated entry lists are the concatenated values. |
| StringTable.Texts | LocresLib/LocresFile.cs:261-265 | The texts of the table, slot by slot. |
| StringTable.FindIndex | LocresLib/LocresFile.cs:178 | The result is -1 or a slot holding the text. |
| StringTable.FindIndexFirst | LocresLib/LocresFile.cs:178 | The result is -1 exactly when the text is absent, and no earlier slot holds it. |
| StringTable.Add | LocresLib/LocresFile.cs:178-188 | The returned index holds the text, and the table grows by at most one slot. |
| StringTable.AddKeepsTexts | LocresLib/LocresFile.cs:180-188 | Existing slots keep their texts. The table grows exactly when the text was new. |
| StringTable.BuildStep | LocresLib/LocresFile.cs:168-192 | The table for one more value is the old table with that value added. |
| StringTable.BuildDistinct | LocresLib/LocresFile.cs:178-188 | No two slots of the built table hold the same text. |
| StringTable.BuildCovers | LocresLib/LocresFile.cs:178-188 | A text is in the table exactly when it is one of the values. |
| StringTable.BuildRefCounts | LocresLib/LocresFile.cs:183-187 | Each slot's reference count is the number of values equal to its text. |
| StringTable.BuildTotalRefs | LocresLib/LocresFile.cs:183-187 | The reference counts add up to the number of entries. |
| StringTable.BuildFirstOccurrenceOrder | LocresLib/LocresFile.cs:182-183 | Slots appear in the order of their text's first occurrence. |
| StringTable.BuildPrefix | LocresLib/LocresFile.cs:182-183 | The table built for a prefix of the values is a prefix of the full table, so slots are never reordered. |
| StringTable.IndexAtPoints | LocresLib/LocresFile.cs:178-190 | The index written for entry k is a slot of the final table that holds entry k's value. |
| StringTable.IndexesAt | LocresLib/LocresFile.cs:190 | The list of written indexes holds, at position k, the index of entry k. |
| StringTable.PlanOfBuild | LocresLib/LocresFile.cs:155-192 | The tables after each entry and the written indexes form a consistent save plan that ends in the built table. |
| StringTable.FirstIndex | LocresLib/LocresFile.cs:178 | The first position holding a value that occurs. |
| LocresFormat.CityHash64Utf16ToUInt32 | LocresLib/LocresFile.cs:250-259 | The empty string hashes to 0. Any other string hashes to `(uint)h + (uint)(h >> 32) * 23`, where h is the CityHash64 of its UTF-16LE bytes and the arithmetic wraps. |
| LocresFormat.CityHashOf | LocresLib/LocresFile.cs:250-259 | Agrees with CityHash64Utf16ToUInt32 on every string .NET can hold. |
| LocresFormat.SaveHashes | LocresLib/LocresFile.cs:160-173 | The hashes Save uses: the given CRC32 and the CityHash fold. |
| LocresFormat.NameHashBytes | LocresLib/LocresFile.cs:160-163 | A namespace hash of 4 bytes is written exactly from Optimized up. |
| LocresFormat.KeyHashBytes | LocresLib/LocresFile.cs:170-173 | A key hash of 4 bytes is written exactly for versions 2 and 3. |
| LocresFormat.HeaderBytes | LocresLib/LocresFile.cs:145-153 | The header has the length its version dictates. |
| LocresFormat.EntryCountField | LocresLib/LocresFile.cs:150-151 | The entry-count field is present exactly from Optimized up. |
| LocresFormat.EntriesBytesSnoc | LocresLib/LocresFile.cs:168-192 | The entries' layout grows by one entry's bytes per entry. |
| LocresFormat.NamespacesBytesSnoc | LocresLib/LocresFile.cs:158-193 | The namespaces' layout grows by one namespace's bytes per namespace. |
| LocresFormat.TableEntriesBytesSnoc | LocresLib/LocresFile.cs:199-213 | The table's layout grows by one slot's bytes per slot. |
| LocresFormat.LegacyEntriesBytesSnoc | LocresLib/LocresFile.cs:234-239 | The legacy entries' layout grows by one entry's bytes per entry. |
| LocresFormat.LegacyNamespacesBytesSnoc | LocresLib/LocresFile.cs:229-240 | The legacy namespaces' layout grows by one namespace's bytes per namespace. |
| LocresFormat.ReadHeader | LocresLib/LocresFile.cs:41-51 | Sixteen bytes equal to the magic give the version byte and the bytes after it. Anything else gives Legacy and rereads from the start. |
| LocresFormat.ReadTableStrings | LocresLib/LocresFile.cs:64-78 | A successful read gives exactly `count` strings. |
| LocresFormat.ReadStringTable | LocresLib/LocresFile.cs:55-81 | After the table is read, reading resumes right after the 8-byte offset field. |
| LocresFormat.ReadEntry | LocresLib/LocresFile.cs:101-121 | From Compact up, an entry's value is a string of the table. |
| LocresFormat.ReadEntries | LocresLib/LocresFile.cs:99-122 | A successful read gives `count` entries, or none for a count of zero or less. |
| LocresFormat.ReadEntriesStep | LocresLib/LocresFile.cs:99-122 | Reading n + 1 entries is reading one entry, then n more. |
| LocresFormat.ReadEntriesStop | LocresLib/LocresFile.cs:99-122 | An error in the first entry is the error of the whole read. |
| LocresFormat.ReadEntriesBroken | LocresLib/LocresFile.cs:99-122 | An error in a later entry is the error of the whole read. |
| LocresFormat.ReadNamespaces | LocresLib/LocresFile.cs:88-125 | A successful read gives `count` namespaces, or none for a count of zero or less. |
| LocresFormat.ReadNamespacesStep | LocresLib/LocresFile.cs:88-125 | Reading n + 1 namespaces is reading one namespace, then n more. |
| LocresFormat.ReadNamespacesStop | LocresLib/LocresFile.cs:88-125 | An error in the first namespace is the error of the whole read. |
| LocresFormat.ReadNamespacesBroken | LocresLib/LocresFile.cs:88-125 | An error in a later namespace is the error of the whole read. |
| Reading.LoadTableStrings | LocresLib/LocresFile.cs:64-78 | The two table loops compute ReadTableStrings, errors included. |
| Reading.LoadStringTable | LocresLib/LocresFile.cs:57-80 | The offset read, the seek, the count read and the loop compute ReadStringTable. A negative offset raises ArgumentOutOfRange, and a negative count raises Overflow. |
| Reading.LoadEntries | LocresLib/LocresFile.cs:99-122 | The entry loop computes ReadEntries, errors included. |
| Reading.LoadNamespace | LocresLib/LocresFile.cs:90-122 | One pass of the namespace loop computes ReadNamespace. |
| LocresLib.LocresFile.constructor | LocresLib/LocresFile.cs:10-12 | A new file is empty, and its version is the enum default, Legacy. |
| LocresLib.LocresFile.TotalCount | LocresLib/LocresFile.cs:18-27 | The C# int sum, wrapping modulo 2^32, of the namespaces' entry counts. It equals the exact count when that fits. |
| LocresLib.LocresFile.Load | LocresLib/LocresFile.cs:29-127 | A non-seekable or non-readable stream raises its ArgumentException and changes nothing. Otherwise Load succeeds exactly when ParseLocres does, and then holds its version and namespaces. On failure Load raises the parser's error. |
| LocresLib.LocresFile.LoadNamespaces | LocresLib/LocresFile.cs:88-125 | Starting from the cleared list, the namespace loop leaves exactly what ReadNamespaces gives, or its error. |
| LocresLib.LocresFile.Save | LocresLib/LocresFile.cs:129-223 | A non-seekable or non-writable stream raises its ArgumentException and changes nothing. Otherwise version Legacy writes LegacyImage at the position. Any other version writes SavedImage (offset and entry count filled in) and leaves the position at the end. |
| Codec.Put | LocresLib/LocresFile.cs:145 | Each write extends the written block by the bytes written. |
| Codec.PutString | LocresLib/LocresFile.cs:165 | An Unreal-string write extends the written block by its encoding. |
| Codec.AddValue | LocresLib/LocresFile.cs:178-188 | The FindIndex / Add / RefCount += 1 statements compute StringTable.Add. |
| Codec.SaveEntry | LocresLib/LocresFile.cs:170-191 | One entry writes its hash, key, source hash and table index, and advances the table as the save plan says. |
| Codec.SaveStrings | LocresLib/LocresFile.cs:168-192 | The entry loop writes every entry's block, and ends with the plan's table and the entry count advanced. |
| Codec.SaveEntries | LocresLib/LocresFile.cs:168-192 | The entries of a namespace are written as EntriesBytes with the plan's indexes. |
| Codec.SaveNamespaceHead | LocresLib/LocresFile.cs:160-166 | Name hash, name and entry count are written as NamespaceHeadBytes. |
| Codec.SaveNamespace | LocresLib/LocresFile.cs:158-192 | One namespace's head and entries are written, and the count grows by its entry count. |
| Codec.SaveEachNamespace | LocresLib/LocresFile.cs:158-193 | The namespace loop writes every namespace in order, and ends with the plan's final table. |
| Codec.SaveNamespaces | LocresLib/LocresFile.cs:155-193 | The namespace section is BodyBytes. The table is the one built from all values, and the entry count is the total. |
| Codec.SaveSlot | LocresLib/LocresFile.cs:203-204 | One slot writes its text, and from Optimized up its reference count. |
| Codec.SaveSlots | LocresLib/LocresFile.cs:199-213 | The slot loop writes every slot in order. |
| Codec.SaveTable | LocresLib/LocresFile.cs:197-213 | The table section is the slot count followed by every slot's bytes. |
| Codec.SaveLegacyEntry | LocresLib/LocresFile.cs:236-238 | A legacy entry writes key, source hash and value inline. |
| Codec.SaveLegacyEntries | LocresLib/LocresFile.cs:234-239 | The legacy entry loop writes every entry in order. |
| Codec.SaveLegacyNamespace | LocresLib/LocresFile.cs:231-239 | A legacy namespace writes its name forced to UTF-16, its count and its entries. |
| Codec.SaveLegacyNamespaces | LocresLib/LocresFile.cs:229-240 | The legacy namespace loop writes every namespace in order. |
| Codec.SaveLegacy | LocresLib/LocresFile.cs:225-241 | SaveLegacy writes exactly LegacyImage. |
| Codec.SaveHeader | LocresLib/LocresFile.cs:145-153 | The header is written with a zero offset and a zero entry count, and the offset field's position is returned. |
| Codec.SaveCountFields | LocresLib/LocresFile.cs:150-153 | The placeholder entry count (from Optimized up) and the namespace count are written. |
| Codec.FillHeader | LocresLib/LocresFile.cs:215-219 | Patching the offset and the entry count turns the placeholder header into the final one and leaves every other byte as it was. |
| Codec.SavedParts | LocresLib/LocresFile.cs:195-216 | The table offset Save records is where the table starts, and the saved image is the filled header followed by body and table. |
| LocresRoundTrip.ReadEntryOf | LocresLib/LocresFile.cs:101-121 | An entry written with a table index pointing at its value reads back as that entry, for versions 1 to 3. |
| LocresRoundTrip.ReadLegacyEntryOf | LocresLib/LocresFile.cs:236-238 | A legacy entry reads back as itself. |
| LocresRoundTrip.ReadEntriesOf | LocresLib/LocresFile.cs:168-192 | A namespace's saved entries read back as the same list, followed by the rest of the bytes. |
| LocresRoundTrip.ReadLegacyEntriesOf | LocresLib/LocresFile.cs:234-239 | Saved legacy entries read back as the same list. |
| LocresRoundTrip.ReadTableOf | LocresLib/LocresFile.cs:199-213 | The saved string table reads back as its texts, with the reference counts skipped from Optimized up. |
| LocresRoundTrip.ReadNamespaceOf | LocresLib/LocresFile.cs:158-192 | A saved namespace reads back as itself. |
| LocresRoundTrip.ReadLegacyNamespaceOf | LocresLib/LocresFile.cs:231-239 | A saved legacy namespace reads back as itself. |
| LocresRoundTrip.ReadNamespacesOf | LocresLib/LocresFile.cs:158-193 | The saved namespace section reads back as the same namespaces, followed by the rest. |
| LocresRoundTrip.ReadLegacyNamespacesOf | LocresLib/LocresFile.cs:229-240 | The saved legacy namespace section reads back as the same namespaces. |
| LocresRoundTrip.ReadSavedHeader | LocresLib/LocresFile.cs:41-51 | A saved header is recognised by its magic and gives back its version. |
| LocresRoundTrip.RestorableTable | LocresLib/LocresFile.cs:178-188 | Every slot of the built table holds a text that reads back unchanged. |
| LocresRoundTrip.SavedTablePosition | LocresLib/LocresFile.cs:195-216 | The recorded offset points at the table's count field, inside the saved image. |
| LocresRoundTrip.ReadSavedTable | LocresLib/LocresFile.cs:55-81 | Following the recorded offset reads back the built table's texts, and resumes after the offset field. |
| LocresRoundTrip.SavedRoundTrip | LocresLib/LocresFile.cs:129-223 | For versions 1 to 3, the saved image, wherever it sits among other bytes, parses back to the same version and namespaces. |
| LocresRoundTrip.LegacyHasNoMagic | LocresLib/LocresFile.cs:41-51 | A legacy image does not start with the magic, unless its namespace count's bytes are the magic's first four. |
| LocresRoundTrip.LegacyRoundTrip | LocresLib/LocresFile.cs:225-241 | A legacy image at the start of the data parses back to Legacy and the same namespaces. |
| LocresRoundTrip.SaveThenLoad | LocresLibTests/LocalizationResourceFileTests.cs:16-37 | Loading, from the same position, the bytes Save leaves in a stream gives the saved version and namespaces (versions 1 to 3). |
| LocresRoundTrip.LegacySaveThenLoad | LocresLibTests/LocalizationResourceFileTests.cs:16-37 | Loading from position 0 what SaveLegacy wrote there gives Legacy and the same namespaces. |
| Converter.ExportedStrings | UnrealLocres/Converter/BaseConverter.cs:20-24 | One line per entry of a namespace, in order. Line j has key `name/key_j`, source value_j and an empty target. |
| Converter.Exported | UnrealLocres/Converter/BaseConverter.cs:16-25 | There are exactly as many lines as the file has entries. |
| Converter.ExportedAt | UnrealLocres/Converter/BaseConverter.cs:18-24 | Entry j of namespace i becomes the line at position (entries before namespace i) + j. |
| Converter.Export | UnrealLocres/Converter/BaseConverter.cs:14-25 | The nested loops build exactly Exported. |
| Converter.DictionaryHolds | UnrealLocres/Converter/BaseConverter.cs:48 | On success, every line's key maps to that line, and every key comes from some line. |
| Converter.DictionaryOk | UnrealLocres/Converter/BaseConverter.cs:48 | ToDictionary succeeds exactly when every key is non-null and no key repeats. |
| Converter.DictionaryNull | UnrealLocres/Converter/BaseConverter.cs:48 | ToDictionary raises ArgumentNull("key") exactly when a null key occurs before any duplicate. |
| Converter.DictionaryStops | UnrealLocres/Converter/BaseConverter.cs:48 | The first failing line decides the exception. |
| Converter.ToDictionary | UnrealLocres/Converter/BaseConverter.cs:48 | The loop adding lines computes Dictionary, errors included. |
| Converter.ImportStrings | UnrealLocres/Converter/BaseConverter.cs:52-63 | The namespace's entries keep their number. |
| Converter.ImportNamespaces | UnrealLocres/Converter/BaseConverter.cs:50-64 | The file's namespaces keep their number. |
| Converter.StringKeys | UnrealLocres/Converter/BaseConverter.cs:54 | Entry j's lookup key is `name/key_j`. |
| Converter.ImportedStrings | UnrealLocres/Converter/BaseConverter.cs:52-63 | Entry j takes the target of the line with its key exactly when that line exists, its target is non-empty, and no earlier entry used that key. Used keys with a filled target are removed from the dictionary, and nothing else is. |
| Converter.ImportedNamespaces | UnrealLocres/Converter/BaseConverter.cs:50-64 | The same across all namespaces: the first entry in traversal order with a given key takes the translation, and later entries with the same key keep their value. |
| Converter.ImportNamespaceAt | UnrealLocres/Converter/BaseConverter.cs:52-63 | The inner loop updates namespace i in place to ImportNamespace's result, and leaves the other namespaces and the version unchanged. |
| Converter.Import | UnrealLocres/Converter/BaseConverter.cs:38-65 | When ToDictionary fails, Import raises its exception and changes nothing. Otherwise the file's namespaces become ImportNamespaces of the dictionary, and the version is unchanged. |

## Left out

- **Crc.StrCrc32** is not part of this model. It is a parameter of Save (`crc`), and the round-trip lemmas hold for any such function.
- **CityHash overloads taking a string and an Encoding** (CityHash.cs:196-205, 405-413, 463-473, 482-492) are left out. They only encode the string with .NET's `Encoding` and call the byte-array versions, which are modelled.
- **CityHash.BigEndian**, a global property, is an explicit `bigEndian` parameter.
- **CityHash.CityHash32**: the long-input do-while loop (CityHash.cs:242-268) is modelled on values, as the recursion `Rounds32`. The method's loop over short inputs is a real loop, but the long rounds are not written as a `while`.
- **CityHash.CityHash64**: the 64-byte chunk loop (CityHash.cs:444-456) is modelled on values, as the recursion `Chunks64`.
- **Input lengths**: CityHash's inputs are bounded by the largest .NET byte array, and strings by the largest .NET string (`MaxLength`). Save requires every name, key and value to be shorter than `MaxLength`. A .NET string of exactly `MaxLength` code units does exist, and for it `value += "\x00"` (BinaryWriterExtensions.cs:19) throws an OutOfMemoryException; that exception of Save is excluded by the requires of UnrealString.WriteUnrealString and not modelled.
- **LocresLib.LocresFile.TotalCount** wraps at 32 bits as the C# int does. The round-trip lemmas compare namespaces, not TotalCount.
- **LocresLib.LocresFile.Load: contents after an exception.** The C# method clears the list first and may have added namespaces and set Version before an exception is raised. The model states the outcome (the exception raised) but not those partial contents.
- **LocresLib.LocresFile.Load: stream position and disposal.** The stream's position after Load and the disposal of the BinaryReader/BinaryWriter (which closes the stream) are not modelled.
- **Aliasing of entry objects.** `LocresString` and `LocresNamespace` are values. Import's `str.Value = tr.Target` is modelled as an update of the file's namespace sequence. Aliasing of the same entry object from two lists is not captured.
- **LocresRoundTrip.SavedRoundTrip** covers versions 1 to 3. Save writes the key hash only for versions 2 and 3 (LocresFile.cs:170-173), but Load reads one for every version from 2 up (LocresFile.cs:101-104). A byte above 3, which Load accepts as a version, therefore does not round-trip.
- **LocresRoundTrip.LegacyRoundTrip** excludes a namespace count whose four bytes equal the start of the magic number: such a legacy file is indistinguishable from a versioned one.
- **The exception message text of .NET errors** (Overflow, ArgumentOutOfRange, end of stream) is modelled by the error's kind only. The ArgumentException messages of the C# code itself are modelled verbatim.
- **Encoding.Unicode.GetString's and Encoding.Unicode.GetBytes's replacement of lone surrogates** is not modelled: both keep code units as they are (BinaryReaderExtensions.cs:20, BinaryWriterExtensions.cs:29). An odd trailing byte is modelled, and gives U+FFFD.
- UnrealString.Utf16RoundTrip, UnrealString.ReadWriteRoundTrip, LocresRoundTrip.SavedRoundTrip and the other round-trip lemmas are stated for this code-unit codec. In the C# program they hold only for text without lone surrogates, because GetBytes writes U+FFFD in place of one.
- LocresTypes.LocresNamespace and LocresTypes.LocresString never hold a null Name, Key or Value. In the C# code a LocresNamespace's Name starts as null (LocresNamespace.cs:9, 13) and the Key and Value setters accept null (LocresString.cs:9-10). WriteUnrealString writes a null as an empty string, so the legacy and compact versions save it as ""; version 3 raises a NullReferenceException when it hashes a null Name or Key (LocresFile.cs:161, 171 and 252), and what Crc.StrCrc32 does with null for version 2 is outside this model.
- LocresFormat.ReadStringTable follows a non-negative string-table offset of any size: an offset past the end of the data leaves nothing to read, so the count read fails with EndOfStream. That is what a FileStream gives. On a MemoryStream, setting Position (LocresFile.cs:59) to an offset above int.MaxValue (2^31 - 1) throws ArgumentOutOfRangeException instead, so for such an offset Load raises a different exception kind than the model states.
- Binary.Stream.Seek requires the position to lie within the data. A .NET MemoryStream also accepts a position past the end, and a later write there fills the gap with zero bytes; Save never seeks past what it has written (LocresFile.cs:215-219), so this case is not modelled.
- **Program.cs** (the command-line tool) is left out. It is not part of the core.
- **CsvConverter and PoConverter**, the file I/O and Console output of BaseConverter (BaseConverter.cs:27-33, 42-46), and the abstract Write/Read are left out. Export returns the lines, and Import takes the parsed lines.
- **UnrealLocres/LocresString.cs**, a second copy of the entry record with a string conversion, is left out. Its constructor behaves like the modelled one.
- **The two table loops of Save** (LocresFile.cs:199-213) are one loop in the model. The version test is moved into the per-slot write, which writes the same bytes.
- **LocresNamespace.ToString** and **LocresString.ToString** are left out: they are text for display only.
