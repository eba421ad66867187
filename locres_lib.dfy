/**
 * LocresFile: the list of namespaces of a .locres file and the version it was read as, with
 * the stream operations that fill it and write it out.
 */
module LocresLib {
  import opened Wrappers
  import opened Binary
  import opened UnrealString
  import opened LocresTypes
  import opened StringTable
  import opened LocresFormat
  import opened Codec
  import opened Reading

  class LocresFile {
    /** The namespaces, in file order (the list LocresFile derives from). */
    var Namespaces: seq<LocresNamespace>
    /** The version of the last file loaded. */
    var Version: Version

    /** A new, empty file; the version is the enum's default, Legacy. */
    constructor ()
      ensures Namespaces == [] && Version == Legacy
    {
      Namespaces := [];
      Version := Legacy;
    }

    /**
     * TotalCount (LocresFile.cs:18-27): the number of entries of all namespaces, summed in a
     * C# int that wraps at 32 bits.
     */
    method TotalCount() returns (total: int)
      ensures total == WrapInt32(CountAll(Namespaces))
      ensures IsInt32(CountAll(Namespaces)) ==> total == CountAll(Namespaces)
    {
      total := 0;
      var i := 0;
      while i < |Namespaces|
        invariant 0 <= i <= |Namespaces| && total == WrapInt32(CountAll(Namespaces[..i]))
      {
        CountAllStep(Namespaces, i);
        WrapAdd(CountAll(Namespaces[..i]), |Namespaces[i].Strings|);
        total := WrapInt32(total + |Namespaces[i].Strings|);
        i := i + 1;
      }
      TakeAll(Namespaces);
    }

    /**
     * Load (LocresFile.cs:29-127): the stream must be seekable and readable; then the list is
     * cleared and the file at the stream's position is read. On success the version and the
     * namespaces are what ParseLocres gives; otherwise the exception it names is raised.
     */
    method Load(stream: Stream) returns (r: Outcome<Error>)
      modifies this
      ensures !stream.CanSeek ==> r == Fail(Argument("Stream must be seekable."))
      ensures stream.CanSeek && !stream.CanRead ==> r == Fail(Argument("Stream must be readable."))
      ensures !(stream.CanSeek && stream.CanRead) ==> Namespaces == old(Namespaces) && Version == old(Version)
      ensures stream.CanSeek && stream.CanRead ==>
        var parsed := ParseLocres(stream.Data, stream.Position);
        (r.Pass? <==> parsed.Ok?)
        && (parsed.Ok? ==> Version == parsed.value.0 && Namespaces == parsed.value.1)
        && (parsed.Err? ==> r == Fail(parsed.error))
    {
      if !stream.CanSeek {
        return Fail(Argument("Stream must be seekable."));
      }
      if !stream.CanRead {
        return Fail(Argument("Stream must be readable."));
      }
      Namespaces := [];
      var data := stream.Data;
      var header := ReadHeader(data, stream.Position);
      if header.Err? {
        return Fail(header.error);
      }
      Version := header.value.0;
      var rest := header.value.1;
      var table: seq<Text> := [];
      if Version >= Compact {
        var stored := LoadStringTable(data, rest, Version);
        if stored.Err? {
          return Fail(stored.error);
        }
        table, rest := stored.value.0, stored.value.1;
      }
      if Version >= Optimized {
        var entriesCount := ReadInt32(rest);
        if entriesCount.Err? {
          return Fail(entriesCount.error);
        }
        rest := entriesCount.value.1;
      }
      var namespaceCount := ReadInt32(rest);
      if namespaceCount.Err? {
        return Fail(namespaceCount.error);
      }
      r := LoadNamespaces(namespaceCount.value.1, namespaceCount.value.0, table);
    }

    /**
     * The loop over the namespaces of Load (LocresFile.cs:88-125): each namespace read is
     * added to the list, which starts empty.
     */
    method LoadNamespaces(rest: seq<byte>, count: int, table: seq<Text>) returns (r: Outcome<Error>)
      requires Namespaces == []
      modifies this
      ensures Version == old(Version)
      ensures var read := ReadNamespaces(rest, count, Version, table);
        (r.Pass? <==> read.Ok?) && (read.Ok? ==> Namespaces == read.value.0) && (read.Err? ==> r == Fail(read.error))
    {
      var cur := rest;
      var i := 0;
      ghost var left := if count <= 0 then 0 else count;
      ghost var whole := ReadNamespaces(rest, count, Version, table);
      PrefixedNothing(whole);
      while i < count
        invariant 0 <= i && left == (if count <= 0 then 0 else count - i) && left >= 0
        invariant Version == old(Version)
        invariant whole == Prefixed(Namespaces, ReadNamespaces(cur, left, Version, table))
      {
        var ns := LoadNamespace(cur, Version, table);
        if ns.Err? {
          ReadNamespacesStop(cur, left, Version, table, ns.error);
          return Fail(ns.error);
        }
        ghost var next := left - 1;
        NamespacesLoopStep(Namespaces, cur, left, next, Version, table, ns.value.0, ns.value.1);
        Namespaces := Namespaces + [ns.value.0];
        cur := ns.value.1;
        i := i + 1;
        left := next;
      }
      assert ReadNamespaces(cur, left, Version, table) == Ok(([], cur));
      assert Namespaces + [] == Namespaces;
      r := Pass;
    }

    /**
     * Save (LocresFile.cs:129-223): the stream must be seekable and writable. Version Legacy is
     * written by SaveLegacy; any other version as a header with placeholders, the namespaces,
     * the string table, then the header's string-table offset and entry count filled in, and
     * the stream left at its end. `crc` is Crc.StrCrc32.
     */
    method Save(stream: Stream, crc: Text -> uint32, outputVersion: Version := Compact) returns (r: Outcome<Error>)
      requires stream.Valid() && Encodable(Namespaces)
      modifies stream
      ensures !stream.CanSeek ==> r == Fail(Argument("Stream must be seekable."))
      ensures stream.CanSeek && !stream.CanWrite ==> r == Fail(Argument("Stream must be writeable."))
      ensures !(stream.CanSeek && stream.CanWrite) ==> stream.Data == old(stream.Data) && stream.Position == old(stream.Position)
      ensures stream.CanSeek && stream.CanWrite ==> r == Pass && stream.Valid() && old(stream.Position) <= |old(stream.Data)|
      ensures stream.CanSeek && stream.CanWrite && outputVersion == Legacy ==>
        stream.Data == Overwrite(old(stream.Data), old(stream.Position), LegacyImage(Namespaces))
        && stream.Position == old(stream.Position) + |LegacyImage(Namespaces)|
      ensures stream.CanSeek && stream.CanWrite && outputVersion != Legacy ==>
        stream.Data == Overwrite(old(stream.Data), old(stream.Position),
                                 SavedImage(Namespaces, outputVersion, SaveHashes(crc), old(stream.Position)))
        && stream.Position == |stream.Data|
    {
      if !stream.CanSeek {
        return Fail(Argument("Stream must be seekable."));
      }
      if !stream.CanWrite {
        return Fail(Argument("Stream must be writeable."));
      }
      ghost var before, start := stream.Data, stream.Position;
      ghost var nothing: seq<byte> := [];
      assert Overwrite(before, start, nothing) == before;
      var nss := Namespaces;
      if outputVersion == Legacy {
        SaveLegacy(stream, nss, before, start, nothing);
        assert nothing + LegacyImage(nss) == LegacyImage(nss);
        return Pass;
      }
      var hs := SaveHashes(crc);
      var arrayOffset := SaveHeader(stream, outputVersion, |nss|, before, start);
      ghost var header := HeaderBytes(outputVersion, 0, 0, |nss|);
      var table, count := SaveNamespaces(stream, nss, outputVersion, hs, before, start, header);
      var stringTableOffset := stream.Position;
      ghost var values := Values(AllStrings(nss));
      EncodableValues(nss);
      BuildCovers(values);
      SaveTable(stream, table, outputVersion, before, start, header + BodyBytes(nss, outputVersion, hs));
      SavedParts(nss, outputVersion, hs, start);
      assert stringTableOffset == TableOffset(nss, outputVersion, hs, start);
      FillHeader(stream, arrayOffset, outputVersion, stringTableOffset, count, |nss|, before, start,
                 BodyBytes(nss, outputVersion, hs) + TableBytes(nss, outputVersion));
      stream.Seek(|stream.Data|);
      r := Pass;
    }
  }
}
