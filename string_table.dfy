/**
 * The de-duplicating string table LocresFile.Save builds for the Compact and Optimized
 * formats: every distinct value is stored once, entries refer to it by index, and each
 * slot counts its references.
 */
module StringTable {
  import opened UnrealString

  /** LocresFile.StringTableEntry: a stored value and how many entries refer to it. */
  datatype StringTableEntry = StringTableEntry(Text: Text, RefCount: int)

  /** The stored values, slot by slot. */
  function Texts(table: seq<StringTableEntry>): (r: seq<Text>)
    ensures |r| == |table|
    ensures forall i :: 0 <= i < |table| ==> r[i] == table[i].Text
  {
    if table == [] then [] else [table[0].Text] + Texts(table[1..])
  }

  /** The first slot's text, then the texts of the others. */
  lemma TextsCons(table: seq<StringTableEntry>)
    requires table != []
    ensures Texts(table) == [table[0].Text] + Texts(table[1..])
  {
    assert Texts(table)[1..] == Texts(table[1..]);
  }

  /** List.FindIndex with the predicate `x.Text == text`: the first slot holding `text`, or -1. */
  function FindIndex(table: seq<StringTableEntry>, text: Text): (i: int)
    ensures -1 <= i < |table|
    ensures 0 <= i ==> table[i].Text == text
  {
    if table == [] then -1
    else if table[0].Text == text then 0
    else
      var k := FindIndex(table[1..], text);
      if k == -1 then -1 else k + 1
  }

  /** FindIndex gives -1 exactly when no slot holds the text, and otherwise the first slot that does. */
  lemma {:induction false} FindIndexFirst(table: seq<StringTableEntry>, text: Text)
    ensures FindIndex(table, text) == -1 <==> text !in Texts(table)
    ensures forall j :: 0 <= j < FindIndex(table, text) ==> table[j].Text != text
  {
    if table != [] && table[0].Text != text {
      FindIndexFirst(table[1..], text);
      TextsCons(table);
    }
  }

  /**
   * Saving one value (LocresFile.cs:178-188): a value already in the table gains a
   * reference, a new one is appended with one reference. Returns the new table and the index
   * written for the value.
   */
  function Add(table: seq<StringTableEntry>, text: Text): (r: (seq<StringTableEntry>, nat))
    ensures r.1 < |r.0| && r.0[r.1].Text == text
    ensures |table| <= |r.0| <= |table| + 1
  {
    var i := FindIndex(table, text);
    if i == -1 then (table + [StringTableEntry(text, 1)], |table|)
    else (table[i := table[i].(RefCount := table[i].RefCount + 1)], i)
  }

  /**
   * Saving a value keeps the texts already stored, and appends a slot exactly when the value
   * is not among them.
   */
  lemma AddKeepsTexts(table: seq<StringTableEntry>, text: Text)
    ensures Texts(Add(table, text).0)[..|table|] == Texts(table)
    ensures text in Texts(table) <==> |Add(table, text).0| == |table|
  {
    FindIndexFirst(table, text);
    var t := Add(table, text).0;
    if FindIndex(table, text) == -1 {
      assert Texts(t)[..|table|] == Texts(table);
    } else {
      assert Texts(t) == Texts(table);
    }
  }

  /** The table after saving `values` in order, starting from an empty table. */
  function Build(values: seq<Text>): (t: seq<StringTableEntry>)
    ensures |t| <= |values|
  {
    if values == [] then []
    else Add(Build(values[..|values| - 1]), values[|values| - 1]).0
  }

  /** The index Save writes for the `k`-th value it meets. */
  function IndexAt(values: seq<Text>, k: nat): nat
    requires k < |values|
  {
    Add(Build(values[..k]), values[k]).1
  }

  /** The table index Save writes for each value, in the order it meets them. */
  function Indexes(values: seq<Text>): (r: seq<int>)
    ensures |r| == |values|
  {
    if values == [] then [] else Indexes(values[..|values| - 1]) + [IndexAt(values, |values| - 1)]
  }

  /** The `k`-th index is the one saving the `k`-th value gives. */
  lemma {:induction false} IndexesAt(values: seq<Text>, k: nat)
    requires k < |values|
    ensures Indexes(values)[k] == IndexAt(values, k)
  {
    var n := |values| - 1;
    if k < n {
      IndexesAt(values[..n], k);
      assert values[..n][..k] == values[..k];
    }
  }

  /** The tables Save holds before each value: `Tables(values)[k]` is the table after `k` values. */
  function Tables(values: seq<Text>): (r: seq<seq<StringTableEntry>>)
    ensures |r| == |values| + 1
  {
    seq(|values| + 1, k requires 0 <= k <= |values| => Build(values[..k]))
  }

  /**
   * Saving the values one by one, starting from the empty table: `tables[k]` is the table
   * before the `k`-th value and `indexes[k]` the index written for it.
   */
  ghost predicate SavePlan(values: seq<Text>, tables: seq<seq<StringTableEntry>>, indexes: seq<int>)
  {
    |tables| == |values| + 1 && |indexes| == |values| && tables[0] == [] &&
    forall k {:trigger Add(tables[k], values[k])} ::
      0 <= k < |values| ==> Add(tables[k], values[k]) == (tables[k + 1], indexes[k])
  }

  /**
   * Build and Indexes are that plan: the tables before each value are those Build gives for
   * the values before it, and the last one is Build of all values.
   */
  lemma PlanOfBuild(values: seq<Text>) returns (tables: seq<seq<StringTableEntry>>)
    ensures SavePlan(values, tables, Indexes(values))
    ensures tables[|values|] == Build(values)
  {
    tables := Tables(values);
    assert values[..0] == [];
    assert values[..|values|] == values;
    forall k | 0 <= k < |values| ensures Add(tables[k], values[k]) == (tables[k + 1], Indexes(values)[k]) {
      BuildNext(values, k, Add(Build(values[..k]), values[k]).0);
      IndexesAt(values, k);
    }
  }

  /** The sum of the reference counts. */
  function TotalRefs(table: seq<StringTableEntry>): int
  {
    if table == [] then 0 else table[0].RefCount + TotalRefs(table[1..])
  }

  /** The position of the first occurrence of `x` in `values`. */
  function FirstIndex(values: seq<Text>, x: Text): (k: nat)
    requires x in values
    ensures k < |values| && values[k] == x && x !in values[..k]
  {
    if values[0] == x then 0
    else
      var k := FirstIndex(values[1..], x);
      assert values[..k + 1] == [values[0]] + values[1..][..k];
      k + 1
  }

  // ---------------------------------------------------------------- helper facts

  lemma {:induction false} BuildStep(values: seq<Text>, x: Text)
    ensures Build(values + [x]) == Add(Build(values), x).0
  {
    assert (values + [x])[..|values|] == values;
  }

  /** Saving the `k`-th value into the table built from the values before it. */
  lemma BuildNext(values: seq<Text>, k: nat, table: seq<StringTableEntry>)
    requires k < |values| && table == Add(Build(values[..k]), values[k]).0
    ensures table == Build(values[..k + 1])
  {
    assert values[..k + 1] == values[..k] + [values[k]];
    BuildStep(values[..k], values[k]);
  }

  lemma {:induction false} FirstIndexExtend(values: seq<Text>, x: Text, y: Text)
    requires y in values
    ensures y in values + [x] && FirstIndex(values + [x], y) == FirstIndex(values, y)
  {
    if values[0] != y {
      assert (values + [x])[1..] == values[1..] + [x];
      FirstIndexExtend(values[1..], x, y);
    }
  }

  lemma {:induction false} TotalRefsAppend(table: seq<StringTableEntry>, e: StringTableEntry)
    ensures TotalRefs(table + [e]) == TotalRefs(table) + e.RefCount
  {
    if table != [] {
      assert (table + [e])[1..] == table[1..] + [e];
      TotalRefsAppend(table[1..], e);
    }
  }

  lemma {:induction false} TotalRefsBump(table: seq<StringTableEntry>, i: nat)
    requires i < |table|
    ensures TotalRefs(table[i := table[i].(RefCount := table[i].RefCount + 1)]) == TotalRefs(table) + 1
  {
    if i > 0 {
      assert table[i := table[i].(RefCount := table[i].RefCount + 1)][1..]
          == table[1..][i - 1 := table[i].(RefCount := table[i].RefCount + 1)];
      TotalRefsBump(table[1..], i - 1);
    }
  }

  // ---------------------------------------------------------------- properties of the table

  /** Each value is stored at most once. */
  lemma {:induction false} BuildDistinct(values: seq<Text>)
    ensures forall i, j :: 0 <= i < j < |Build(values)| ==> Build(values)[i].Text != Build(values)[j].Text
  {
    if values != [] {
      var p, x := values[..|values| - 1], values[|values| - 1];
      BuildDistinct(p);
      AddKeepsTexts(Build(p), x);
      FindIndexFirst(Build(p), x);
      assert Texts(Build(p))[..|Build(p)|] == Texts(Build(p));
    }
  }

  /** The stored values are exactly the values saved. */
  lemma {:induction false} BuildCovers(values: seq<Text>)
    ensures forall x :: x in values <==> x in Texts(Build(values))
  {
    if values != [] {
      var p, x := values[..|values| - 1], values[|values| - 1];
      assert values == p + [x];
      BuildCovers(p);
      var t, t' := Build(p), Build(values);
      AddKeepsTexts(t, x);
      assert Texts(t')[..|t|] == Texts(t);
      forall y | y in Texts(t) ensures y in Texts(t') {
        var i :| 0 <= i < |t| && Texts(t)[i] == y;
        assert Texts(t')[i] == y;
      }
    }
  }

  /** A slot's reference count is the number of saved entries holding its value. */
  lemma {:induction false} BuildRefCounts(values: seq<Text>)
    ensures forall i :: 0 <= i < |Build(values)| ==>
      Build(values)[i].RefCount == multiset(values)[Build(values)[i].Text]
  {
    if values != [] {
      var p, x := values[..|values| - 1], values[|values| - 1];
      assert values == p + [x];
      BuildRefCounts(p);
      BuildCovers(p);
      BuildDistinct(p);
      var t := Build(p);
      var i := FindIndex(t, x);
      FindIndexFirst(t, x);
      if i == -1 {
        assert multiset(p)[x] == 0;
      }
    }
  }

  /** The reference counts add up to the number of entries saved. */
  lemma {:induction false} BuildTotalRefs(values: seq<Text>)
    ensures TotalRefs(Build(values)) == |values|
  {
    if values != [] {
      var p, x := values[..|values| - 1], values[|values| - 1];
      BuildTotalRefs(p);
      var t := Build(p);
      assert Build(values) == Add(t, x).0;
      var i := FindIndex(t, x);
      if i == -1 {
        assert Add(t, x).0 == t + [StringTableEntry(x, 1)];
        TotalRefsAppend(t, StringTableEntry(x, 1));
      } else {
        assert Add(t, x).0 == t[i := t[i].(RefCount := t[i].RefCount + 1)];
        TotalRefsBump(t, i);
      }
    }
  }

  /** Every text in `ts` occurs in `values`, and `ts` lists them in order of first occurrence. */
  predicate FirstOccurrenceOrdered(values: seq<Text>, ts: seq<Text>)
  {
    (forall x :: x in ts ==> x in values) &&
    forall i, j :: 0 <= i < j < |ts| ==> FirstIndex(values, ts[i]) < FirstIndex(values, ts[j])
  }

  /** The slots are in the order in which their values first occur among the saved entries. */
  lemma {:induction false} BuildFirstOccurrenceOrder(values: seq<Text>)
    ensures FirstOccurrenceOrdered(values, Texts(Build(values)))
  {
    if values != [] {
      var p, x := values[..|values| - 1], values[|values| - 1];
      assert values == p + [x];
      BuildFirstOccurrenceOrder(p);
      BuildCovers(p);
      BuildStep(p, x);
      var t, t' := Build(p), Build(p + [x]);
      AddKeepsTexts(t, x);
      assert Texts(t')[..|t|] == Texts(t);
      if x in p {
        assert Texts(t') == Texts(t);
      } else {
        assert Texts(t') == Texts(t) + [x];
      }
      FirstOccurrenceExtend(p, x, Texts(t), Texts(t'));
    }
  }

  /**
   * Appending `x` to the saved values keeps the order, whether `x` is new (and its slot is
   * appended) or not (and the slots stay as they are).
   */
  lemma FirstOccurrenceExtend(p: seq<Text>, x: Text, ts: seq<Text>, ts': seq<Text>)
    requires FirstOccurrenceOrdered(p, ts)
    requires if x in p then ts' == ts else ts' == ts + [x]
    ensures FirstOccurrenceOrdered(p + [x], ts')
  {
    var values := p + [x];
    forall y | y in ts ensures y in values && FirstIndex(values, y) == FirstIndex(p, y) < |p| {
      FirstIndexExtend(p, x, y);
    }
    if x !in p {
      assert values[..|p|] == p;
      assert FirstIndex(values, x) == |p|;
      forall i, j | 0 <= i < j < |ts'|
        ensures FirstIndex(values, ts'[i]) < FirstIndex(values, ts'[j])
      {
        assert ts'[i] == ts[i];
        if j < |ts| {
          assert ts'[j] == ts[j];
        }
      }
    }
  }

  /** The slots stored after `m` values are the first slots of the final table. */
  lemma {:induction false} BuildPrefix(values: seq<Text>, m: nat)
    requires m <= |values|
    ensures |Build(values[..m])| <= |Build(values)|
    ensures Texts(Build(values))[..|Build(values[..m])|] == Texts(Build(values[..m]))
  {
    if m < |values| {
      var p := values[..|values| - 1];
      assert p[..m] == values[..m];
      BuildPrefix(p, m);
    } else {
      assert values[..m] == values;
    }
  }

  /** Every index Save writes designates a slot of the final table holding that entry's value. */
  lemma IndexAtPoints(values: seq<Text>, k: nat)
    requires k < |values|
    ensures IndexAt(values, k) < |Build(values)|
    ensures Build(values)[IndexAt(values, k)].Text == values[k]
  {
    assert values[..k + 1] == values[..k] + [values[k]];
    BuildStep(values[..k], values[k]);
    BuildPrefix(values, k + 1);
    var t := Build(values[..k + 1]);
    assert Texts(Build(values))[IndexAt(values, k)] == Texts(t)[IndexAt(values, k)];
  }
}
