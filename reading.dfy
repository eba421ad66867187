/**
 * The loops of LocresFile.Load, one read after another on the bytes that remain in the
 * stream. Each method is proved to compute what the corresponding parser function of module
 * LocresFormat describes, error included.
 */
module Reading {
  import opened Wrappers
  import opened Binary
  import opened UnrealString
  import opened LocresTypes
  import opened LocresFormat

  /** What a loop has collected so far, in front of what its remaining iterations read. */
  function Prefixed<T>(acc: seq<T>, r: Result<(seq<T>, seq<byte>), Error>): (p: Result<(seq<T>, seq<byte>), Error>)
    ensures p.Ok? <==> r.Ok?
    ensures p.Ok? ==> p.value.1 == r.value.1 && |p.value.0| == |acc| + |r.value.0|
    ensures p.Err? ==> p == r
  {
    if r.Ok? then Ok((acc + r.value.0, r.value.1)) else r
  }

  /** Likewise for a list read without the bytes after it. */
  function PrefixedList<T>(acc: seq<T>, r: Result<seq<T>, Error>): (p: Result<seq<T>, Error>)
    ensures p.Ok? <==> r.Ok?
    ensures p.Ok? ==> |p.value| == |acc| + |r.value|
    ensures p.Err? ==> p == r
  {
    if r.Ok? then Ok(acc + r.value) else r
  }

  /** Nothing collected yet leaves a result as it is. */
  lemma PrefixedNothing<T>(r: Result<(seq<T>, seq<byte>), Error>)
    ensures Prefixed([], r) == r
  {
    if r.Ok? {
      assert [] + r.value.0 == r.value.0;
    }
  }

  /** One more item moves from what remains to what was collected. */
  lemma PrefixedStep<T>(acc: seq<T>, x: T, r: Result<(seq<T>, seq<byte>), Error>)
    ensures Prefixed(acc, if r.Ok? then Ok(([x] + r.value.0, r.value.1)) else r) == Prefixed(acc + [x], r)
  {
    if r.Ok? {
      assert acc + ([x] + r.value.0) == acc + [x] + r.value.0;
    }
  }

  /** A list read as one item followed by `more`, after `acc`, is `more` after `acc` and that item. */
  lemma PrefixedCons<T>(acc: seq<T>, x: T, whole: Result<(seq<T>, seq<byte>), Error>,
                        more: Result<(seq<T>, seq<byte>), Error>)
    requires more.Ok? ==> whole == Ok(([x] + more.value.0, more.value.1))
    requires more.Err? ==> whole == more
    ensures Prefixed(acc, whole) == Prefixed(acc + [x], more)
  {
    PrefixedStep(acc, x, more);
  }

  /** Likewise for lists. */
  lemma PrefixedListNothing<T>(r: Result<seq<T>, Error>)
    ensures PrefixedList([], r) == r
  {
    if r.Ok? {
      assert [] + r.value == r.value;
    }
  }

  /** Likewise for lists. */
  lemma PrefixedListStep<T>(acc: seq<T>, x: T, r: Result<seq<T>, Error>)
    ensures PrefixedList(acc, if r.Ok? then Ok([x] + r.value) else r) == PrefixedList(acc + [x], r)
  {
    if r.Ok? {
      assert acc + ([x] + r.value) == acc + [x] + r.value;
    }
  }

  /**
   * One iteration of the table loop that reads `text` and stops at `after`: the text moves to
   * what was collected.
   */
  lemma TableLoopStep(acc: seq<Text>, cur: seq<byte>, count: nat, next: nat, withRefCounts: bool,
                      text: Text, after: seq<byte>)
    requires count > 0 && next == count - 1
    requires ReadUnrealString(cur).Ok? && ReadUnrealString(cur).value.0 == text
    requires var s := ReadUnrealString(cur).value.1;
      if withRefCounts then ReadInt32(s).Ok? && ReadInt32(s).value.1 == after else s == after
    ensures PrefixedList(acc, ReadTableStrings(cur, count, withRefCounts))
         == PrefixedList(acc + [text], ReadTableStrings(after, next, withRefCounts))
  {
    PrefixedListStep(acc, text, ReadTableStrings(after, next, withRefCounts));
  }

  /**
   * The loops over the string table (LocresFile.cs:64-78): `count` strings, each followed from
   * Optimized up by a reference count that is read and dropped. The strings fill the array
   * Load allocates for them.
   */
  method LoadTableStrings(rest: seq<byte>, count: nat, withRefCounts: bool) returns (r: Result<seq<Text>, Error>)
    ensures r == ReadTableStrings(rest, count, withRefCounts)
  {
    var strings: seq<Text> := [];
    var cur := rest;
    var i := 0;
    ghost var left := count;
    ghost var whole := ReadTableStrings(rest, count, withRefCounts);
    PrefixedListNothing(whole);
    while i < count
      invariant 0 <= i <= count && left == count - i
      invariant whole == PrefixedList(strings, ReadTableStrings(cur, left, withRefCounts))
    {
      ghost var here := cur;
      ghost var next := left - 1;
      var s := ReadUnrealString(cur);
      if s.Err? {
        return Err(s.error);
      }
      cur := s.value.1;
      if withRefCounts {
        var refCount := ReadInt32(cur);
        if refCount.Err? {
          return Err(refCount.error);
        }
        cur := refCount.value.1;
      }
      TableLoopStep(strings, here, left, next, withRefCounts, s.value.0, cur);
      strings := strings + [s.value.0];
      i := i + 1;
      left := next;
    }
    assert strings + [] == strings;
    r := Ok(strings);
  }

  /**
   * The string table of a Compact or later file (LocresFile.cs:57-80): the int64 offset, the
   * slot count read there and the slots; reading then resumes right after the offset field.
   */
  method LoadStringTable(data: seq<byte>, rest: seq<byte>, version: Version)
    returns (r: Result<(seq<Text>, seq<byte>), Error>)
    ensures r == ReadStringTable(data, rest, version)
  {
    var offset := ReadInt64(rest);
    if offset.Err? {
      return Err(offset.error);
    }
    if offset.value.0 < 0 {
      return Err(ArgumentOutOfRange);
    }
    var count := ReadInt32(Remaining(data, offset.value.0));
    if count.Err? {
      return Err(count.error);
    }
    if count.value.0 < 0 {
      return Err(Overflow);
    }
    var strings := LoadTableStrings(count.value.1, count.value.0, version >= Optimized);
    if strings.Err? {
      return Err(strings.error);
    }
    r := Ok((strings.value, offset.value.1));
  }

  /** One iteration of the entry loop: the entry read moves to what was collected. */
  lemma EntriesLoopStep(acc: seq<LocresString>, cur: seq<byte>, count: int, next: int, version: Version,
                        table: seq<Text>, e: LocresString, after: seq<byte>)
    requires count > 0 && next == count - 1 && ReadEntry(cur, version, table) == Ok((e, after))
    ensures Prefixed(acc, ReadEntries(cur, count, version, table))
         == Prefixed(acc + [e], ReadEntries(after, next, version, table))
  {
    var more := ReadEntries(after, next, version, table);
    if more.Ok? {
      ReadEntriesStep(cur, count, version, table, e, after, more.value.0, more.value.1);
    } else {
      ReadEntriesBroken(cur, count, version, table, e, after, more.error);
    }
    PrefixedCons(acc, e, ReadEntries(cur, count, version, table), more);
  }

  /**
   * The loop over the entries of a namespace (LocresFile.cs:99-122): `count` entries, none
   * when `count` is zero or less.
   */
  method LoadEntries(rest: seq<byte>, count: int, version: Version, table: seq<Text>)
    returns (r: Result<(seq<LocresString>, seq<byte>), Error>)
    ensures r == ReadEntries(rest, count, version, table)
  {
    var strings: seq<LocresString> := [];
    var cur := rest;
    var j := 0;
    ghost var left := if count <= 0 then 0 else count;
    ghost var whole := ReadEntries(rest, count, version, table);
    PrefixedNothing(whole);
    while j < count
      invariant 0 <= j && left == (if count <= 0 then 0 else count - j) && left >= 0
      invariant whole == Prefixed(strings, ReadEntries(cur, left, version, table))
    {
      var e := ReadEntry(cur, version, table);
      if e.Err? {
        ReadEntriesStop(cur, left, version, table, e.error);
        return Err(e.error);
      }
      ghost var next := left - 1;
      EntriesLoopStep(strings, cur, left, next, version, table, e.value.0, e.value.1);
      strings := strings + [e.value.0];
      cur := e.value.1;
      j := j + 1;
      left := next;
    }
    assert ReadEntries(cur, left, version, table) == Ok(([], cur));
    assert strings + [] == strings;
    r := Ok((strings, cur));
  }

  /**
   * One namespace (LocresFile.cs:90-122): name hash (read and dropped from Optimized up), name,
   * key count and entries.
   */
  method LoadNamespace(rest: seq<byte>, version: Version, table: seq<Text>)
    returns (r: Result<(LocresNamespace, seq<byte>), Error>)
    ensures r == ReadNamespace(rest, version, table)
  {
    var cur := rest;
    if version >= Optimized {
      var hash := ReadUInt32(cur);
      if hash.Err? {
        return Err(hash.error);
      }
      cur := hash.value.1;
    }
    var name := ReadUnrealString(cur);
    if name.Err? {
      return Err(name.error);
    }
    var keyCount := ReadInt32(name.value.1);
    if keyCount.Err? {
      return Err(keyCount.error);
    }
    var strings := LoadEntries(keyCount.value.1, keyCount.value.0, version, table);
    if strings.Err? {
      return Err(strings.error);
    }
    r := Ok((LocresNamespace(name.value.0, strings.value.0), strings.value.1));
  }

  /** One iteration of the namespace loop: the namespace read moves to what was collected. */
  lemma NamespacesLoopStep(acc: seq<LocresNamespace>, cur: seq<byte>, count: int, next: int, version: Version,
                           table: seq<Text>, ns: LocresNamespace, after: seq<byte>)
    requires count > 0 && next == count - 1 && ReadNamespace(cur, version, table) == Ok((ns, after))
    ensures Prefixed(acc, ReadNamespaces(cur, count, version, table))
         == Prefixed(acc + [ns], ReadNamespaces(after, next, version, table))
  {
    var more := ReadNamespaces(after, next, version, table);
    if more.Ok? {
      ReadNamespacesStep(cur, count, version, table, ns, after, more.value.0, more.value.1);
    } else {
      ReadNamespacesBroken(cur, count, version, table, ns, after, more.error);
    }
    PrefixedCons(acc, ns, ReadNamespaces(cur, count, version, table), more);
  }
}
