/**
 * The key mapping of the converters (UnrealLocres/Converter/BaseConverter.cs). Export
 * flattens a file into translation entries keyed "namespace/key"; Import writes the targets
 * of parsed translation entries back into the values of the file's entries, by that key.
 * Writing and parsing the translation files themselves belong to the concrete converters.
 */
module Converter {
  import opened Wrappers
  import opened Binary
  import opened UnrealString
  import opened LocresTypes
  import opened LocresLib

  /** A translation line: combined key, source text and target text; null is None. */
  datatype TranslationEntry = TranslationEntry(Key: Option<Text>, Source: Option<Text>, Target: Option<Text>)

  /** The code unit of '/'. */
  const Slash: CodeUnit := 0x2F

  /** The message of the exception Dictionary.Add raises for a key it already holds. */
  const DuplicateKey := "An item with the same key has already been added."

  /** The key an entry is exported and imported under: namespace name, '/', entry key. */
  function CombinedKey(name: Text, key: Text): Text
  {
    name + [Slash] + key
  }

  // ---------------------------------------------------------------- Export

  /** The line Export writes for an entry of namespace `name`: its value as source, no target yet. */
  function ExportEntry(name: Text, s: LocresString): TranslationEntry
  {
    TranslationEntry(Some(CombinedKey(name, s.Key)), Some(s.Value), Some([]))
  }

  /** The lines of the entries of one namespace, in order. */
  function ExportedStrings(name: Text, strings: seq<LocresString>): (r: seq<TranslationEntry>)
    ensures |r| == |strings|
    ensures forall j :: 0 <= j < |strings| ==> r[j] == ExportEntry(name, strings[j])
  {
    if strings == [] then []
    else ExportedStrings(name, strings[..|strings| - 1]) + [ExportEntry(name, strings[|strings| - 1])]
  }

  /** The lines of every namespace, namespaces in order: one per entry of the file. */
  function Exported(nss: seq<LocresNamespace>): (r: seq<TranslationEntry>)
    ensures |r| == CountAll(nss)
  {
    if nss == [] then []
    else
      var n := |nss| - 1;
      assert nss[..n + 1] == nss;
      CountAllStep(nss, n);
      Exported(nss[..n]) + ExportedStrings(nss[n].Name, nss[n].Strings)
  }

  /**
   * Entry `j` of namespace `i` gives the line right after the lines of the namespaces before
   * it and of the entries before it in its own namespace.
   */
  lemma {:induction false} ExportedAt(nss: seq<LocresNamespace>, i: nat, j: nat)
    requires i < |nss| && j < |nss[i].Strings|
    ensures CountAll(nss[..i]) + j < |Exported(nss)|
    ensures Exported(nss)[CountAll(nss[..i]) + j] == ExportEntry(nss[i].Name, nss[i].Strings[j])
  {
    var n := |nss| - 1;
    var init := nss[..n];
    assert Exported(nss) == Exported(init) + ExportedStrings(nss[n].Name, nss[n].Strings);
    if i < n {
      assert init[i] == nss[i] && init[..i] == nss[..i];
      ExportedAt(init, i, j);
    } else {
      assert init == nss[..i];
    }
  }

  /**
   * Export (BaseConverter.cs:14-25): one line per entry of each namespace, in traversal
   * order, as many as the file has entries.
   */
  method Export(locres: LocresFile) returns (data: seq<TranslationEntry>)
    ensures data == Exported(locres.Namespaces)
    ensures |data| == CountAll(locres.Namespaces)
  {
    data := [];
    var i := 0;
    while i < |locres.Namespaces|
      invariant 0 <= i <= |locres.Namespaces|
      invariant data == Exported(locres.Namespaces[..i])
    {
      var ns := locres.Namespaces[i];
      var j := 0;
      while j < |ns.Strings|
        invariant 0 <= j <= |ns.Strings|
        invariant data == Exported(locres.Namespaces[..i]) + ExportedStrings(ns.Name, ns.Strings[..j])
      {
        var str := ns.Strings[j];
        var key := CombinedKey(ns.Name, str.Key);
        assert ns.Strings[..j + 1][..j] == ns.Strings[..j];
        data := data + [TranslationEntry(Some(key), Some(str.Value), Some([]))];
        j := j + 1;
      }
      assert ns.Strings[..j] == ns.Strings;
      assert locres.Namespaces[..i + 1][..i] == locres.Namespaces[..i];
      i := i + 1;
    }
    assert locres.Namespaces[..i] == locres.Namespaces;
  }

  // ---------------------------------------------------------------- ToDictionary

  /**
   * data.ToDictionary(x => x.Key): the lines are added one by one; a null key raises
   * ArgumentNullException and a key already added raises ArgumentException.
   */
  function Dictionary(data: seq<TranslationEntry>): (r: Result<map<Text, TranslationEntry>, Error>)
  {
    if data == [] then Ok(map[])
    else
      var dict :- Dictionary(data[..|data| - 1]);
      var x := data[|data| - 1];
      if x.Key.None? then Err(ArgumentNull("key"))
      else if x.Key.value in dict then Err(Argument(DuplicateKey))
      else Ok(dict[x.Key.value := x])
  }

  /** Every line has a key, and no two lines have the same one. */
  predicate KeysDistinct(data: seq<TranslationEntry>)
  {
    (forall i :: 0 <= i < |data| ==> data[i].Key.Some?)
    && (forall i, j :: 0 <= i < j < |data| ==> data[i].Key != data[j].Key)
  }

  /** A dictionary that is built maps each line's key to that line and holds no other key. */
  lemma {:induction false} DictionaryHolds(data: seq<TranslationEntry>)
    requires Dictionary(data).Ok?
    ensures forall i :: 0 <= i < |data| ==>
      data[i].Key.Some? && data[i].Key.value in Dictionary(data).value
      && Dictionary(data).value[data[i].Key.value] == data[i]
    ensures forall k :: k in Dictionary(data).value ==> exists i :: 0 <= i < |data| && data[i].Key == Some(k)
  {
    if data != [] {
      var n := |data| - 1;
      var init, x := data[..n], data[n];
      DictionaryHolds(init);
      var d := Dictionary(init).value;
      var k := x.Key.value;
      var m := Dictionary(data).value;
      assert m == d[k := x];
      forall i | 0 <= i < |data|
        ensures data[i].Key.Some? && data[i].Key.value in m && m[data[i].Key.value] == data[i]
      {
        if i < n {
          assert data[i] == init[i];
        }
      }
      forall k' | k' in m
        ensures exists i :: 0 <= i < |data| && data[i].Key == Some(k')
      {
        if k' != k {
          var i :| 0 <= i < n && init[i].Key == Some(k');
          assert data[i] == init[i];
        } else {
          assert data[n].Key == Some(k');
        }
      }
    }
  }

  /** The dictionary is built exactly when every line has a key and the keys are distinct. */
  lemma {:induction false} DictionaryOk(data: seq<TranslationEntry>)
    ensures Dictionary(data).Ok? <==> KeysDistinct(data)
  {
    if data != [] {
      var n := |data| - 1;
      var init, x := data[..n], data[n];
      DictionaryOk(init);
      assert forall i :: 0 <= i < n ==> init[i] == data[i];
      var d := Dictionary(init);
      if d.Ok? {
        DictionaryHolds(init);
        if x.Key.Some? && x.Key.value in d.value {
          var i :| 0 <= i < n && init[i].Key == x.Key;
          assert data[i].Key == data[n].Key;
        }
      } else {
        assert !KeysDistinct(init);
      }
    }
  }

  /**
   * ToDictionary raises ArgumentNullException exactly when some line has no key and the
   * lines before it have distinct keys.
   */
  lemma {:induction false} DictionaryNull(data: seq<TranslationEntry>)
    ensures Dictionary(data) == Err(ArgumentNull("key"))
        <==> exists i :: 0 <= i < |data| && data[i].Key.None? && KeysDistinct(data[..i])
  {
    if data != [] {
      var n := |data| - 1;
      var init := data[..n];
      DictionaryNull(init);
      DictionaryOk(init);
      assert forall i :: 0 <= i <= n ==> data[..i] == init[..i];
      assert init[..n] == init;
      if Dictionary(init).Ok? {
        assert forall i :: 0 <= i < n ==> !(init[i].Key.None? && KeysDistinct(init[..i]));
      }
    }
  }

  /** Once a line raises, the lines after it are never added. */
  lemma {:induction false} DictionaryStops(data: seq<TranslationEntry>, i: nat)
    requires i <= |data| && Dictionary(data[..i]).Err?
    ensures Dictionary(data) == Dictionary(data[..i])
  {
    if i < |data| {
      var n := |data| - 1;
      assert data[..n][..i] == data[..i];
      DictionaryStops(data[..n], i);
    } else {
      assert data[..i] == data;
    }
  }

  /** The ToDictionary call of Import (BaseConverter.cs:48), adding the lines in order. */
  method ToDictionary(data: seq<TranslationEntry>) returns (r: Result<map<Text, TranslationEntry>, Error>)
    ensures r == Dictionary(data)
  {
    var dict: map<Text, TranslationEntry> := map[];
    var i := 0;
    while i < |data|
      invariant 0 <= i <= |data|
      invariant Dictionary(data[..i]) == Ok(dict)
    {
      var x := data[i];
      assert data[..i + 1][..i] == data[..i] && data[..i + 1][i] == x;
      if x.Key.None? {
        DictionaryStops(data, i + 1);
        return Err(ArgumentNull("key"));
      }
      if x.Key.value in dict {
        DictionaryStops(data, i + 1);
        return Err(Argument(DuplicateKey));
      }
      dict := dict[x.Key.value := x];
      i := i + 1;
    }
    assert data[..i] == data;
    r := Ok(dict);
  }

  // ---------------------------------------------------------------- Import

  /** A target that is neither null nor empty (string.IsNullOrEmpty is false). */
  predicate Filled(t: TranslationEntry)
  {
    t.Target.Some? && |t.Target.value| > 0
  }

  /**
   * Import's step for one entry of namespace `name` (BaseConverter.cs:54-62): a line found
   * under the entry's combined key with a filled target replaces the value and is removed
   * from the dictionary; otherwise nothing changes.
   */
  function ImportEntry(name: Text, s: LocresString, dict: map<Text, TranslationEntry>)
    : (LocresString, map<Text, TranslationEntry>)
  {
    var key := CombinedKey(name, s.Key);
    if key !in dict then (s, dict)
    else if !Filled(dict[key]) then (s, dict)
    else (s.(Value := dict[key].Target.value), dict - {key})
  }

  /** Import over the entries of one namespace, the dictionary passed from entry to entry. */
  function ImportStrings(name: Text, strings: seq<LocresString>, dict: map<Text, TranslationEntry>)
    : (r: (seq<LocresString>, map<Text, TranslationEntry>))
    ensures |r.0| == |strings|
  {
    if strings == [] then ([], dict)
    else
      var done := ImportStrings(name, strings[..|strings| - 1], dict);
      var last := ImportEntry(name, strings[|strings| - 1], done.1);
      (done.0 + [last.0], last.1)
  }

  /** Import over one namespace: its entries change, its name does not. */
  function ImportNamespace(ns: LocresNamespace, dict: map<Text, TranslationEntry>)
    : (LocresNamespace, map<Text, TranslationEntry>)
  {
    var r := ImportStrings(ns.Name, ns.Strings, dict);
    (ns.(Strings := r.0), r.1)
  }

  /** Import over the namespaces in order, the dictionary passed from namespace to namespace. */
  function ImportNamespaces(nss: seq<LocresNamespace>, dict: map<Text, TranslationEntry>)
    : (r: (seq<LocresNamespace>, map<Text, TranslationEntry>))
    ensures |r.0| == |nss|
  {
    if nss == [] then ([], dict)
    else
      var done := ImportNamespaces(nss[..|nss| - 1], dict);
      var last := ImportNamespace(nss[|nss| - 1], done.1);
      (done.0 + [last.0], last.1)
  }

  /** The combined keys of the entries of one namespace, in order. */
  function StringKeys(name: Text, strings: seq<LocresString>): (r: seq<Text>)
    ensures |r| == |strings|
    ensures forall j :: 0 <= j < |strings| ==> r[j] == CombinedKey(name, strings[j].Key)
  {
    if strings == [] then []
    else StringKeys(name, strings[..|strings| - 1]) + [CombinedKey(name, strings[|strings| - 1].Key)]
  }

  /** The combined keys of every entry of the file, in traversal order. */
  function AllKeys(nss: seq<LocresNamespace>): seq<Text>
  {
    if nss == [] then []
    else AllKeys(nss[..|nss| - 1]) + StringKeys(nss[|nss| - 1].Name, nss[|nss| - 1].Strings)
  }

  /**
   * An entry after Import, judged against the dictionary Import started with: its value is
   * the target of the line under its key when that line exists, its target is filled and no
   * earlier entry had the same key; otherwise the entry is unchanged.
   */
  function Translated(s: LocresString, key: Text, earlier: seq<Text>, dict: map<Text, TranslationEntry>)
    : LocresString
  {
    if key in dict && Filled(dict[key]) && key !in earlier then s.(Value := dict[key].Target.value) else s
  }

  /**
   * The dictionary `now`, left after entries with keys `used` went through Import starting
   * from `dict`: the lines of `dict` except those under a used key with a filled target.
   */
  ghost predicate RemainingAfter(now: map<Text, TranslationEntry>, dict: map<Text, TranslationEntry>, used: seq<Text>)
  {
    forall k :: (k in now <==> k in dict && !(k in used && Filled(dict[k])))
                && (k in now ==> now[k] == dict[k])
  }

  /** Nothing used yet leaves the dictionary as it was. */
  lemma RemainingAtStart(dict: map<Text, TranslationEntry>)
    ensures RemainingAfter(dict, dict, [])
  {
  }

  /** One entry's step, judged against the dictionary Import started with. */
  lemma ImportEntryStep(name: Text, s: LocresString, now: map<Text, TranslationEntry>,
                        dict: map<Text, TranslationEntry>, used: seq<Text>)
    requires RemainingAfter(now, dict, used)
    ensures var key := CombinedKey(name, s.Key);
      var r := ImportEntry(name, s, now);
      r.0 == Translated(s, key, used, dict) && RemainingAfter(r.1, dict, used + [key])
  {
    var key := CombinedKey(name, s.Key);
    var r := ImportEntry(name, s, now);
    forall k
      ensures (k in r.1 <==> k in dict && !(k in used + [key] && Filled(dict[k])))
              && (k in r.1 ==> r.1[k] == dict[k])
    {
      assert k in used + [key] <==> k in used || k == key;
    }
  }

  /** Keys used in two rounds are the keys of both, one after the other. */
  lemma RemainingCompose(later: map<Text, TranslationEntry>, now: map<Text, TranslationEntry>,
                         dict: map<Text, TranslationEntry>, a: seq<Text>, b: seq<Text>)
    requires RemainingAfter(now, dict, a) && RemainingAfter(later, now, b)
    ensures RemainingAfter(later, dict, a + b)
  {
    forall k
      ensures (k in later <==> k in dict && !(k in a + b && Filled(dict[k])))
              && (k in later ==> later[k] == dict[k])
    {
      assert k in a + b <==> k in a || k in b;
    }
  }

  /** Judging an entry against a later dictionary is judging it with the keys used before. */
  lemma TranslatedShift(s: LocresString, key: Text, a: seq<Text>, b: seq<Text>,
                        now: map<Text, TranslationEntry>, dict: map<Text, TranslationEntry>)
    requires RemainingAfter(now, dict, a)
    ensures Translated(s, key, b, now) == Translated(s, key, a + b, dict)
  {
    assert key in a + b <==> key in a || key in b;
  }

  /**
   * Import over the entries of one namespace: each entry is Translated with the keys of the
   * entries before it, and the dictionary loses the keys used with a filled target.
   */
  lemma {:induction false} ImportedStrings(name: Text, strings: seq<LocresString>, dict: map<Text, TranslationEntry>)
    ensures var r := ImportStrings(name, strings, dict);
      RemainingAfter(r.1, dict, StringKeys(name, strings))
      && forall j :: 0 <= j < |strings| ==>
           r.0[j] == Translated(strings[j], CombinedKey(name, strings[j].Key), StringKeys(name, strings[..j]), dict)
  {
    var r := ImportStrings(name, strings, dict);
    if strings == [] {
      RemainingAtStart(dict);
    } else {
      var n := |strings| - 1;
      var init := strings[..n];
      var done := ImportStrings(name, init, dict);
      ImportedStrings(name, init, dict);
      ImportEntryStep(name, strings[n], done.1, dict, StringKeys(name, init));
      assert StringKeys(name, strings) == StringKeys(name, init) + [CombinedKey(name, strings[n].Key)];
      forall j | 0 <= j < |strings|
        ensures r.0[j] == Translated(strings[j], CombinedKey(name, strings[j].Key), StringKeys(name, strings[..j]), dict)
      {
        if j < n {
          assert init[..j] == strings[..j] && init[j] == strings[j];
        } else {
          assert init == strings[..j];
        }
      }
    }
  }

  /**
   * Namespace `after` is `ns` after Import, judged against the starting dictionary with
   * `earlier` the keys of the entries of the namespaces before it: same name, same number of
   * entries, each entry Translated.
   */
  ghost predicate ImportedAs(after: LocresNamespace, ns: LocresNamespace, earlier: seq<Text>,
                       dict: map<Text, TranslationEntry>)
  {
    after.Name == ns.Name && |after.Strings| == |ns.Strings|
    && forall j :: 0 <= j < |ns.Strings| ==>
         after.Strings[j] == Translated(ns.Strings[j], CombinedKey(ns.Name, ns.Strings[j].Key),
                                        earlier + StringKeys(ns.Name, ns.Strings[..j]), dict)
  }

  /** One namespace's step, judged against the dictionary Import started with. */
  lemma ImportNamespaceStep(ns: LocresNamespace, now: map<Text, TranslationEntry>,
                            dict: map<Text, TranslationEntry>, used: seq<Text>)
    requires RemainingAfter(now, dict, used)
    ensures var r := ImportNamespace(ns, now);
      ImportedAs(r.0, ns, used, dict) && RemainingAfter(r.1, dict, used + StringKeys(ns.Name, ns.Strings))
  {
    var r := ImportStrings(ns.Name, ns.Strings, now);
    ImportedStrings(ns.Name, ns.Strings, now);
    RemainingCompose(r.1, now, dict, used, StringKeys(ns.Name, ns.Strings));
    forall j | 0 <= j < |ns.Strings|
      ensures r.0[j] == Translated(ns.Strings[j], CombinedKey(ns.Name, ns.Strings[j].Key),
                                   used + StringKeys(ns.Name, ns.Strings[..j]), dict)
    {
      TranslatedShift(ns.Strings[j], CombinedKey(ns.Name, ns.Strings[j].Key), used,
                      StringKeys(ns.Name, ns.Strings[..j]), now, dict);
    }
  }

  /**
   * Import over the whole file: the namespaces keep their order, names and entry counts; each
   * entry keeps its key and source-string hash and takes the target of the line under its
   * combined key exactly when that line exists, its target is neither null nor empty, and no
   * earlier entry in traversal order has the same combined key (the line was removed then).
   */
  lemma {:induction false} ImportedNamespaces(nss: seq<LocresNamespace>, dict: map<Text, TranslationEntry>)
    ensures var r := ImportNamespaces(nss, dict);
      RemainingAfter(r.1, dict, AllKeys(nss))
      && forall i :: 0 <= i < |nss| ==> ImportedAs(r.0[i], nss[i], AllKeys(nss[..i]), dict)
  {
    var r := ImportNamespaces(nss, dict);
    if nss == [] {
      RemainingAtStart(dict);
    } else {
      var n := |nss| - 1;
      var init := nss[..n];
      var done := ImportNamespaces(init, dict);
      ImportedNamespaces(init, dict);
      ImportNamespaceStep(nss[n], done.1, dict, AllKeys(init));
      forall i | 0 <= i < |nss|
        ensures ImportedAs(r.0[i], nss[i], AllKeys(nss[..i]), dict)
      {
        if i < n {
          assert init[..i] == nss[..i] && init[i] == nss[i];
        } else {
          assert init == nss[..i];
        }
      }
    }
  }

  /** Entries processed before `j` then the untouched rest, with entry `j` replaced by `y`. */
  lemma SpliceAt<T>(done: seq<T>, s: seq<T>, j: nat, y: T)
    requires |done| == j < |s|
    ensures (done + s[j..])[j] == s[j]
    ensures (done + s[j..])[j := y] == done + [y] + s[j + 1..]
    ensures done + s[j..] == done + [s[j]] + s[j + 1..]
  {
    assert s[j..] == [s[j]] + s[j + 1..];
  }

  /** Import over one more entry of a namespace. */
  lemma ImportStringsStep(name: Text, strings: seq<LocresString>, j: nat, dict: map<Text, TranslationEntry>)
    requires j < |strings|
    ensures var done := ImportStrings(name, strings[..j], dict);
      var e := ImportEntry(name, strings[j], done.1);
      ImportStrings(name, strings[..j + 1], dict) == (done.0 + [e.0], e.1)
  {
    assert strings[..j + 1][..j] == strings[..j];
  }

  /** Import over one more namespace. */
  lemma ImportNamespacesStep(nss: seq<LocresNamespace>, i: nat, dict: map<Text, TranslationEntry>)
    requires i < |nss|
    ensures var done := ImportNamespaces(nss[..i], dict);
      var ns := ImportNamespace(nss[i], done.1);
      ImportNamespaces(nss[..i + 1], dict) == (done.0 + [ns.0], ns.1)
  {
    assert nss[..i + 1][..i] == nss[..i];
  }

  /**
   * The inner loop of Import (BaseConverter.cs:52-63) over namespace `i` of the file: the
   * entries' values are assigned in place and used lines are removed from the dictionary.
   */
  method ImportNamespaceAt(locres: LocresFile, i: nat, dict: map<Text, TranslationEntry>)
    returns (after: map<Text, TranslationEntry>)
    requires i < |locres.Namespaces|
    modifies locres
    ensures locres.Version == old(locres.Version)
    ensures var r := ImportNamespace(old(locres.Namespaces)[i], dict);
      locres.Namespaces == old(locres.Namespaces)[i := r.0] && after == r.1
  {
    ghost var before := locres.Namespaces;
    var ns := locres.Namespaces[i];
    var strings := ns.Strings;
    after := dict;
    var j := 0;
    assert before[i := ns.(Strings := strings)] == before;
    assert [] + ns.Strings[0..] == ns.Strings;
    while j < |ns.Strings|
      invariant 0 <= j <= |ns.Strings|
      invariant locres.Version == old(locres.Version)
      invariant locres.Namespaces == before[i := ns.(Strings := strings)]
      invariant var done := ImportStrings(ns.Name, ns.Strings[..j], dict);
        strings == done.0 + ns.Strings[j..] && after == done.1
    {
      ghost var done := ImportStrings(ns.Name, ns.Strings[..j], dict);
      ImportStringsStep(ns.Name, ns.Strings, j, dict);
      ghost var e := ImportEntry(ns.Name, ns.Strings[j], done.1);
      SpliceAt(done.0, ns.Strings, j, e.0);
      var str := strings[j];
      var key := CombinedKey(ns.Name, str.Key);
      if key in after {
        var tr := after[key];
        if Filled(tr) {
          strings := strings[j := str.(Value := tr.Target.value)];
          locres.Namespaces := locres.Namespaces[i := ns.(Strings := strings)];
          after := after - {key};
        }
      }
      j := j + 1;
    }
    assert ns.Strings[..j] == ns.Strings && ns.Strings[j..] == [];
    ghost var all := ImportStrings(ns.Name, ns.Strings, dict);
    assert strings == all.0 + [] == all.0 && after == all.1;
    assert ImportNamespace(ns, dict) == (ns.(Strings := all.0), all.1);
  }

  /**
   * Import (BaseConverter.cs:38-65) with the lines the converter has already parsed: a null
   * or repeated key raises before any entry changes; otherwise the entries take their
   * translations in place (see ImportedNamespaces for what each entry becomes).
   */
  method Import(locres: LocresFile, data: seq<TranslationEntry>) returns (r: Outcome<Error>)
    modifies locres
    ensures locres.Version == old(locres.Version)
    ensures var dict := Dictionary(data);
      (dict.Err? ==> r == Fail(dict.error) && locres.Namespaces == old(locres.Namespaces))
      && (dict.Ok? ==> r == Pass && locres.Namespaces == ImportNamespaces(old(locres.Namespaces), dict.value).0)
  {
    var built := ToDictionary(data);
    if built.Err? {
      return Fail(built.error);
    }
    var dict := built.value;
    ghost var start := locres.Namespaces;
    var i := 0;
    assert [] + start[0..] == start;
    while i < |locres.Namespaces|
      invariant 0 <= i <= |start| == |locres.Namespaces|
      invariant locres.Version == old(locres.Version)
      invariant var done := ImportNamespaces(start[..i], built.value);
        locres.Namespaces == done.0 + start[i..] && dict == done.1
    {
      ghost var done := ImportNamespaces(start[..i], built.value);
      ImportNamespacesStep(start, i, built.value);
      SpliceAt(done.0, start, i, ImportNamespace(start[i], done.1).0);
      dict := ImportNamespaceAt(locres, i, dict);
      i := i + 1;
    }
    assert start[..i] == start;
    assert locres.Namespaces == ImportNamespaces(start, built.value).0 + [];
    r := Pass;
  }
}
