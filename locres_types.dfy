/**
 * The in-memory shape of a localization resource: versions, entries (LocresString) and
 * namespaces (LocresNamespace).
 */
module LocresTypes {
  import opened Wrappers
  import opened Binary
  import opened UnrealString

  /**
   * LocresVersion is a byte-valued enum. A loaded file may carry any byte, so every value
   * 0..255 is a version; the codec only ever compares versions with `==` and `>=`.
   */
  type Version = v: int | 0 <= v < 256

  /** Legacy format: no magic number, values stored inline. */
  const Legacy: Version := 0
  /** Compact format: values stored once in a string table. */
  const Compact: Version := 1
  /** Optimized format: CRC32-hashed namespaces and keys, entry count and reference counts. */
  const Optimized: Version := 2
  /** Optimized format with CityHash64 (UTF-16) hashes instead of CRC32. */
  const OptimizedCityHash64Utf16: Version := 3

  /** One localized entry: its key, its (localized) value and the hash of its source string. */
  datatype LocresString = LocresString(Key: Text, Value: Text, SourceStringHash: uint32)

  /**
   * The LocresString constructor. A C# string argument may be null (None here); the
   * constructor rejects a null key first, then a null value.
   */
  function NewLocresString(key: Option<Text>, value: Option<Text>, sourceStringHash: uint32)
    : (r: Result<LocresString, Error>)
    ensures key.None? <==> r == Err(ArgumentNull("key"))
    ensures key.Some? && value.None? <==> r == Err(ArgumentNull("value"))
    ensures r.Ok? <==> key.Some? && value.Some?
    ensures r.Ok? ==> r.value.Key == key.value && r.value.Value == value.value
    ensures r.Ok? ==> r.value.SourceStringHash == sourceStringHash
  {
    match (key, value)
    case (None, _) => Err(ArgumentNull("key"))
    case (Some(_), None) => Err(ArgumentNull("value"))
    case (Some(k), Some(v)) => Ok(LocresString(k, v, sourceStringHash))
  }

  /** A namespace: a name and an ordered list of entries. */
  datatype LocresNamespace = LocresNamespace(Name: Text, Strings: seq<LocresString>)

  /** All entries of all namespaces, in traversal order. */
  function AllStrings(nss: seq<LocresNamespace>): seq<LocresString>
  {
    if nss == [] then [] else nss[0].Strings + AllStrings(nss[1..])
  }

  /** The values of a list of entries. */
  function Values(strings: seq<LocresString>): (r: seq<Text>)
    ensures |r| == |strings|
    ensures forall i :: 0 <= i < |strings| ==> r[i] == strings[i].Value
  {
    if strings == [] then [] else [strings[0].Value] + Values(strings[1..])
  }

  /** The values of two lists of entries, one after the other. */
  lemma ValuesAppend(a: seq<LocresString>, b: seq<LocresString>)
    ensures Values(a + b) == Values(a) + Values(b)
  {
    assert forall i :: 0 <= i < |a + b| ==> Values(a + b)[i] == (Values(a) + Values(b))[i];
  }

  /** The sum of the per-namespace entry counts (LocresFile.TotalCount, without int overflow). */
  function CountAll(nss: seq<LocresNamespace>): nat
  {
    if nss == [] then 0 else |nss[0].Strings| + CountAll(nss[1..])
  }

  /** The total count is the number of entries met when walking every namespace in order. */
  lemma {:induction false} CountAllIsLength(nss: seq<LocresNamespace>)
    ensures CountAll(nss) == |AllStrings(nss)|
  {
    if nss != [] {
      CountAllIsLength(nss[1..]);
    }
  }

  /** Walking two lists of namespaces one after the other meets the entries of both. */
  lemma {:induction false} AllStringsAppend(a: seq<LocresNamespace>, b: seq<LocresNamespace>)
    ensures AllStrings(a + b) == AllStrings(a) + AllStrings(b)
    ensures CountAll(a + b) == CountAll(a) + CountAll(b)
  {
    if a == [] {
      assert a + b == b;
    } else {
      assert (a + b)[1..] == a[1..] + b;
      AllStringsAppend(a[1..], b);
    }
  }

  /** The namespaces from `i` on: namespace `i`'s entries, then those of the ones after it. */
  lemma AllStringsFrom(nss: seq<LocresNamespace>, i: nat)
    requires i < |nss|
    ensures AllStrings(nss[i..]) == nss[i].Strings + AllStrings(nss[i + 1..])
    ensures CountAll(nss[i..]) == |nss[i].Strings| + CountAll(nss[i + 1..])
  {
    assert nss[i..][1..] == nss[i + 1..];
  }

  /** The namespaces before `i` and those from `i` on, one after the other. */
  lemma AllStringsSplit(nss: seq<LocresNamespace>, i: nat)
    requires i <= |nss|
    ensures AllStrings(nss) == AllStrings(nss[..i]) + AllStrings(nss[i..])
    ensures CountAll(nss) == CountAll(nss[..i]) + CountAll(nss[i..])
  {
    assert nss == nss[..i] + nss[i..];
    AllStringsAppend(nss[..i], nss[i..]);
  }

  /** Taking one more namespace adds its entries at the end. */
  lemma AllStringsPrefixStep(nss: seq<LocresNamespace>, i: nat)
    requires i < |nss|
    ensures AllStrings(nss[..i + 1]) == AllStrings(nss[..i]) + nss[i].Strings
    ensures CountAll(nss[..i + 1]) == CountAll(nss[..i]) + |nss[i].Strings|
  {
    assert nss[..i + 1] == nss[..i] + [nss[i]];
    AllStringsAppend(nss[..i], [nss[i]]);
    assert AllStrings([nss[i]]) == nss[i].Strings + AllStrings([]);
  }

  /** The first `i` namespaces have no more entries than all of them. */
  lemma CountAllPrefix(nss: seq<LocresNamespace>, i: nat)
    requires i <= |nss|
    ensures CountAll(nss[..i]) <= CountAll(nss)
  {
    AllStringsSplit(nss, i);
  }

  /** One more namespace adds its entry count. */
  lemma CountAllStep(nss: seq<LocresNamespace>, j: nat)
    requires j < |nss|
    ensures CountAll(nss[..j + 1]) == CountAll(nss[..j]) + |nss[j].Strings|
  {
    AllStringsPrefixStep(nss, j);
  }

  /** The entries of namespace `j` lie within the entries of all namespaces. */
  lemma CountAllFits(nss: seq<LocresNamespace>, j: nat)
    requires j < |nss|
    ensures CountAll(nss[..j]) + |nss[j].Strings| <= CountAll(nss)
  {
    CountAllStep(nss, j);
    CountAllPrefix(nss, j + 1);
  }

  /** The entry's key and value fit a .NET string with its terminating NUL. */
  predicate EncodableString(e: LocresString)
  {
    |e.Key| < MaxLength && |e.Value| < MaxLength
  }

  /** Every entry of the list can be written. */
  predicate EncodableStrings(strings: seq<LocresString>)
  {
    forall e :: e in strings ==> EncodableString(e)
  }

  /** Every namespace name, key and value fits a .NET string with its terminating NUL. */
  predicate Encodable(nss: seq<LocresNamespace>)
  {
    (forall i :: 0 <= i < |nss| ==> |nss[i].Name| < MaxLength) && EncodableStrings(AllStrings(nss))
  }

  /**
   * The entry's key and value also survive the reader's trimming of trailing NULs: neither
   * ends with one.
   */
  predicate RestorableString(e: LocresString)
  {
    EncodableString(e) && !EndsWithNul(e.Key) && !EndsWithNul(e.Value)
  }

  /** Every entry of the list reads back unchanged. */
  predicate RestorableStrings(strings: seq<LocresString>)
  {
    forall e :: e in strings ==> RestorableString(e)
  }

  /** Entries that read back unchanged can be written; so can every entry after the first. */
  lemma RestorableStringsSplit(strings: seq<LocresString>)
    requires RestorableStrings(strings)
    ensures EncodableStrings(strings)
    ensures strings != [] ==> RestorableString(strings[0]) && RestorableStrings(strings[1..])
    ensures strings != [] ==> EncodableStrings(strings[1..])
  {
    if strings != [] {
      assert strings[0] in strings;
      forall x | x in strings[1..] ensures RestorableString(x) {
        assert x in strings;
      }
    }
  }

  /** Every text is one an Unreal string gives back unchanged. */
  predicate Restorable(nss: seq<LocresNamespace>)
  {
    (forall i :: 0 <= i < |nss| ==> |nss[i].Name| < MaxLength && !EndsWithNul(nss[i].Name)) &&
    RestorableStrings(AllStrings(nss))
  }

  /** The first `i` namespaces of a writable list are writable. */
  lemma EncodablePrefix(nss: seq<LocresNamespace>, i: nat)
    requires i <= |nss| && Encodable(nss)
    ensures Encodable(nss[..i])
  {
    AllStringsSplit(nss, i);
    forall x | x in AllStrings(nss[..i]) ensures EncodableString(x) {
      assert x in AllStrings(nss);
    }
  }

  /** The first `j` entries of a writable list are writable. */
  lemma EncodableStringsPrefix(strings: seq<LocresString>, j: nat)
    requires j <= |strings| && EncodableStrings(strings)
    ensures EncodableStrings(strings[..j])
  {
    forall x | x in strings[..j] ensures EncodableString(x) {
      assert x in strings;
    }
  }

  /**
   * The values of the first `i` namespaces are the first values of all of them, and those of
   * namespace `i` come right after.
   */
  lemma ValuesStep(nss: seq<LocresNamespace>, i: nat)
    requires i < |nss|
    ensures var values, c := Values(AllStrings(nss)), CountAll(nss[..i]);
      c + |nss[i].Strings| <= |values| &&
      values[..c] == Values(AllStrings(nss[..i])) &&
      values[..c] + Values(nss[i].Strings) == values[..c + |nss[i].Strings|]
  {
    var values, c, n := Values(AllStrings(nss)), CountAll(nss[..i]), |nss[i].Strings|;
    var before, mine := AllStrings(nss[..i]), nss[i].Strings;
    AllStringsPrefixStep(nss, i);
    AllStringsSplit(nss, i + 1);
    CountAllIsLength(nss[..i]);
    var after := AllStrings(nss[i + 1..]);
    assert AllStrings(nss) == before + mine + after;
    ValuesAppend(before + mine, after);
    ValuesAppend(before, mine);
    assert values == Values(before) + Values(mine) + Values(after);
  }

  /**
   * Namespace `i`'s entries take the places CountAll(nss[..i]) up to CountAll(nss[..i + 1]) of
   * all entries, and their values those places of all values.
   */
  lemma ValuesOfNamespace(nss: seq<LocresNamespace>, i: nat)
    requires i < |nss|
    ensures var values, c := Values(AllStrings(nss)), CountAll(nss[..i]);
      |values| == CountAll(nss) && c + |nss[i].Strings| == CountAll(nss[..i + 1]) <= |values| &&
      values[c..c + |nss[i].Strings|] == Values(nss[i].Strings)
  {
    var values, c, n := Values(AllStrings(nss)), CountAll(nss[..i]), |nss[i].Strings|;
    ValuesStep(nss, i);
    AllStringsPrefixStep(nss, i);
    CountAllIsLength(nss);
    assert values[c..c + n] == values[..c + n][c..];
    assert (values[..c] + Values(nss[i].Strings))[c..] == Values(nss[i].Strings);
  }

  /** The name and the entries of each namespace of a writable list can be written. */
  lemma EncodableNamespace(nss: seq<LocresNamespace>, i: nat)
    requires i < |nss| && Encodable(nss)
    ensures |nss[i].Name| < MaxLength && EncodableStrings(nss[i].Strings)
  {
    AllStringsSplit(nss, i);
    AllStringsFrom(nss, i);
    forall x | x in nss[i].Strings ensures EncodableString(x) {
      assert x in AllStrings(nss);
    }
  }

  /** Every value saved for the namespaces fits a .NET string with its terminating NUL. */
  lemma EncodableValues(nss: seq<LocresNamespace>)
    requires Encodable(nss)
    ensures forall x :: x in Values(AllStrings(nss)) ==> |x| < MaxLength
  {
    forall x | x in Values(AllStrings(nss)) ensures |x| < MaxLength {
      var k :| 0 <= k < |AllStrings(nss)| && Values(AllStrings(nss))[k] == x;
      assert AllStrings(nss)[k] in AllStrings(nss);
    }
  }

  /** Likewise for the values of namespaces whose texts round-trip. */
  lemma RestorableValues(nss: seq<LocresNamespace>)
    requires Restorable(nss)
    ensures forall x :: x in Values(AllStrings(nss)) ==> |x| < MaxLength && !EndsWithNul(x)
  {
    forall x | x in Values(AllStrings(nss)) ensures |x| < MaxLength && !EndsWithNul(x) {
      var k :| 0 <= k < |AllStrings(nss)| && Values(AllStrings(nss))[k] == x;
      assert AllStrings(nss)[k] in AllStrings(nss);
    }
  }
}
