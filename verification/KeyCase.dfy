/**
 Putting the file's spelling back into map keys that loading has lower-cased. A decoded value
 is walked beside the same file parsed with its case kept.
 */
module KeyCase {
  import opened Wrappers
  import opened Strings

  // The file. A mapping's keys are given as text.
  datatype Raw = Null | Text(text: string) | Items(items: seq<Raw>) | Mapping(entries: map<string, Raw>)

  datatype Field = Field(name: string, exported: bool, squash: bool, skipped: bool, value: Value)

  // A decoded value; Nil is a nil pointer or interface.
  datatype Value =
    | Nil
    | Scalar(text: string)
    | List(items: seq<Value>)
    | Map(isNil: bool, entries: map<string, Value>)
    | Struct(fields: seq<Field>)
    | Ptr(target: Value)

  // strings.ToLower, strings.EqualFold, and mapstructure.WeakDecode of a file's value into the
  // type of a decoded one.
  datatype Rules = Rules(lower: string -> string, equalFold: (string, string) -> bool,
                         decode: (Value, Raw) -> Option<Value>)

  // ---- lookupFold ----

  predicate IsLeast(k: string, keys: set<string>) {
    k in keys && forall j :: j in keys ==> !Less(j, k)
  }

  lemma LeastIsUnique(j: string, k: string, keys: set<string>)
    requires IsLeast(j, keys) && IsLeast(k, keys)
    ensures j == k
  {
    LessIsTotal(j, k);
  }

  // The least of the keys seen so far and one more.
  lemma LeastOfMore(keys: set<string>, least: string, k: string)
    requires IsLeast(least, keys)
    ensures IsLeast(if Less(k, least) then k else least, keys + {k})
  {
    LessIsTotal(k, least);
    if Less(k, least) {
      forall j | j in keys
        ensures !Less(j, k)
      {
        if Less(j, k) {
          LessIsTransitive(j, k, least);
        }
      }
    }
  }

  lemma LeastExists(keys: set<string>) returns (least: string)
    requires keys != {}
    ensures IsLeast(least, keys)
    decreases |keys|
  {
    var k :| k in keys;
    if keys == {k} {
      LessIsTotal(k, k);
      return k;
    }
    least := LeastExists(keys - {k});
    LeastOfMore(keys - {k}, least, k);
    assert keys - {k} + {k} == keys;
    least := if Less(k, least) then k else least;
  }

  function Folded(g: Rules, m: map<string, Raw>, name: string): set<string> {
    set k | k in m && g.equalFold(k, name)
  }

  /** A struct field's entry in the file: its exact name's, or that of the least one equal but for case. */
  ghost function LookupFold(g: Rules, m: map<string, Raw>, name: string): (r: Option<Raw>)
    ensures r.Some? ==> exists k :: k in m && r.value == m[k]
  {
    if name in m then Some(m[name])
    else if Folded(g, m, name) == {} then None
    else
      assert exists k :: IsLeast(k, Folded(g, m, name)) by { var _ := LeastExists(Folded(g, m, name)); }
      var k :| IsLeast(k, Folded(g, m, name));
      Some(m[k])
  }

  method FirstSorted(keys: set<string>) returns (least: string)
    requires keys != {}
    ensures IsLeast(least, keys)
  {
    least :| least in keys;
    var rest := keys - {least};
    LessIsTotal(least, least);
    while rest != {}
      invariant rest <= keys && IsLeast(least, keys - rest)
      decreases |rest|
    {
      var k :| k in rest;
      LeastOfMore(keys - rest, least, k);
      assert keys - (rest - {k}) == keys - rest + {k};
      rest := rest - {k};
      if Less(k, least) {
        least := k;
      }
    }
    assert keys - rest == keys;
  }

  method FindFold(g: Rules, m: map<string, Raw>, name: string) returns (r: Option<Raw>)
    ensures r == LookupFold(g, m, name)
  {
    if name in m {
      return Some(m[name]);
    }
    var keys := Folded(g, m, name);
    if keys == {} {
      return None;
    }
    var least := FirstSorted(keys);
    ghost var k :| IsLeast(k, keys) && LookupFold(g, m, name) == Some(m[k]);
    LeastIsUnique(k, least, keys);
    return Some(m[least]);
  }

  // ---- restoreKeyCase ----

  /** The file's spellings of a decoded key. */
  function Spellings(g: Rules, rm: map<string, Raw>, key: string): set<string> {
    set c | c in rm && g.lower(c) == g.lower(key)
  }

  // The keys under which an entry is kept: a key that is not in the file keeps its own.
  function NewKeys(g: Rules, rm: map<string, Raw>, key: string): set<string> {
    if Spellings(g, rm, key) == {} then {key} else Spellings(g, rm, key)
  }

  function Decoded(g: Rules, v: Value, raw: Raw): Value {
    if g.decode(v, raw).Some? then g.decode(v, raw).value else v
  }

  predicate IsEmptyMapping(raw: Raw) {
    raw.Mapping? && raw.entries == map[]
  }

  /** keepEmptyMap: a nil map that the file sets to {} becomes an empty one. */
  function KeepEmpty(v: Value, raw: Raw): Value {
    if v.Map? && v.isNil && IsEmptyMapping(raw) then Map(false, map[]) else v
  }

  /** Loading lower-cased the keys, so no two of a map differ only in case. */
  predicate CaseDistinct(g: Rules, v: Value) {
    match v {
      case List(items) => forall i :: 0 <= i < |items| ==> CaseDistinct(g, items[i])
      case Map(isNil, m) =>
        && (isNil ==> m == map[])
        && (forall j, k :: j in m && k in m && g.lower(j) == g.lower(k) ==> j == k)
        && (forall k :: k in m ==> CaseDistinct(g, m[k]))
      case Struct(fs) => forall i :: 0 <= i < |fs| ==> CaseDistinct(g, fs[i].value)
      case Ptr(t) => CaseDistinct(g, t)
      case _ => true
    }
  }

  /** The value with the file's spelling of its keys. */
  ghost function Restore(g: Rules, v: Value, raw: Raw): Value
    decreases v, 1
  {
    if raw == Null then v
    else match v {
      case Ptr(t) => Ptr(Restore(g, t, raw))
      case List(items) =>
        if raw.Items? && |raw.items| == |items|
        then List(seq(|items|, i requires 0 <= i < |items| => Restore(g, items[i], raw.items[i])))
        else v
      case Struct(fs) =>
        if raw.Mapping? then Struct(seq(|fs|, i requires 0 <= i < |fs| => RestoreField(g, v, i, raw))) else v
      case Map(isNil, m) =>
        if isNil || !raw.Mapping? then v
        else Map(false, map c | c in AllKeys(g, m, raw.entries) ::
          RestoreEntry(g, v, raw.entries, SourceOf(g, m, raw.entries, c), c))
      case _ => v
    }
  }

  ghost function RestoreField(g: Rules, v: Value, i: nat, raw: Raw): Field
    requires v.Struct? && i < |v.fields| && raw.Mapping?
    decreases v, 0
  {
    var f := v.fields[i];
    if !f.exported then f
    else if f.squash then f.(value := Restore(g, f.value, raw))
    else if f.skipped then f
    else
      var child := LookupFold(g, raw.entries, f.name);
      if child.None? then f
      else if KeepEmpty(f.value, child.value) != f.value then f.(value := KeepEmpty(f.value, child.value))
      else f.(value := Restore(g, f.value, child.value))
  }

  ghost function RestoreEntry(g: Rules, v: Value, rm: map<string, Raw>, k: string, c: string): Value
    requires v.Map? && k in v.entries && c in NewKeys(g, rm, k)
    decreases v, 0
  {
    var w := v.entries[k];
    if Spellings(g, rm, k) == {} then w
    else if |Spellings(g, rm, k)| == 1 then Restore(g, w, rm[c])
    else Decoded(g, w, rm[c])
  }

  function AllKeys(g: Rules, m: map<string, Value>, rm: map<string, Raw>): set<string> {
    set k, c | k in m && c in NewKeys(g, rm, k) :: c
  }

  ghost function SourceOf(g: Rules, m: map<string, Value>, rm: map<string, Raw>, c: string): (k: string)
    requires c in AllKeys(g, m, rm)
    ensures k in m && c in NewKeys(g, rm, k)
  {
    var k :| k in m && c in NewKeys(g, rm, k);
    k
  }

  lemma SourceIsUnique(g: Rules, m: map<string, Value>, rm: map<string, Raw>, k: string, c: string)
    requires k in m && c in NewKeys(g, rm, k) && forall i, j :: i in m && j in m && g.lower(i) == g.lower(j) ==> i == j
    ensures c in AllKeys(g, m, rm) && SourceOf(g, m, rm, c) == k
  {
    assert g.lower(SourceOf(g, m, rm, c)) == g.lower(c) == g.lower(k);
  }

  // The new entries for one decoded key.
  method RestoreOne(g: Rules, v: Value, rm: map<string, Raw>, k: string) returns (added: map<string, Value>)
    requires v.Map? && k in v.entries && CaseDistinct(g, v)
    ensures added.Keys == NewKeys(g, rm, k) && forall c :: c in added ==> added[c] == RestoreEntry(g, v, rm, k, c)
    decreases v, 0
  {
    var spellings := Spellings(g, rm, k);
    var w := v.entries[k];
    if |spellings| == 0 {
      return map[k := w];
    }
    if |spellings| == 1 {
      var c :| c in spellings;
      assert spellings == {c} by {
        assert |spellings - {c}| == 0;
      }
      var restored := RestoreKeyCase(g, w, rm[c]);
      return map[c := restored];
    }
    added := map[];
    var rest := spellings;
    while rest != {}
      invariant rest <= spellings && added.Keys == spellings - rest
      invariant forall c :: c in added ==> added[c] == Decoded(g, w, rm[c])
      decreases |rest|
    {
      var c :| c in rest;
      rest := rest - {c};
      added := added[c := if g.decode(w, rm[c]).Some? then g.decode(w, rm[c]).value else w];
    }
  }

  // Part of a restored map: the entries that come from the decoded keys dealt with.
  ghost predicate RestoredFrom(g: Rules, v: Value, rm: map<string, Raw>, out: map<string, Value>, rest: set<string>)
    requires v.Map?
  {
    forall c :: c in out <==> c in AllKeys(g, v.entries, rm) && SourceOf(g, v.entries, rm, c) !in rest
  }

  ghost predicate EntriesRight(g: Rules, v: Value, rm: map<string, Raw>, out: map<string, Value>)
    requires v.Map?
  {
    forall c :: c in out ==>
      c in AllKeys(g, v.entries, rm) && out[c] == RestoreEntry(g, v, rm, SourceOf(g, v.entries, rm, c), c)
  }

  ghost predicate AllFrom(g: Rules, m: map<string, Value>, rm: map<string, Raw>, keys: set<string>, k: string) {
    forall c :: c in keys ==> c in AllKeys(g, m, rm) && SourceOf(g, m, rm, c) == k
  }

  lemma NewKeysComeFrom(g: Rules, v: Value, rm: map<string, Raw>, k: string)
    requires v.Map? && CaseDistinct(g, v) && k in v.entries
    ensures AllFrom(g, v.entries, rm, NewKeys(g, rm, k), k)
  {
    forall c | c in NewKeys(g, rm, k)
      ensures c in AllKeys(g, v.entries, rm) && SourceOf(g, v.entries, rm, c) == k
    {
      SourceIsUnique(g, v.entries, rm, k, c);
    }
  }

  lemma OneMoreKey(g: Rules, v: Value, rm: map<string, Raw>, out: map<string, Value>, rest: set<string>, k: string,
                   added: map<string, Value>)
    requires v.Map? && k in rest && k in v.entries && AllFrom(g, v.entries, rm, added.Keys, k)
    requires RestoredFrom(g, v, rm, out, rest) && EntriesRight(g, v, rm, out)
    requires added.Keys == NewKeys(g, rm, k) && forall c :: c in added ==> added[c] == RestoreEntry(g, v, rm, k, c)
    ensures RestoredFrom(g, v, rm, out + added, rest - {k}) && EntriesRight(g, v, rm, out + added)
  {
  }

  method RestoreMap(g: Rules, v: Value, raw: Raw) returns (r: Value)
    requires v.Map? && !v.isNil && raw.Mapping? && CaseDistinct(g, v)
    ensures r == Restore(g, v, raw)
    decreases v, 1
  {
    var m, rm := v.entries, raw.entries;
    var out: map<string, Value> := map[];
    var rest := m.Keys;
    while rest != {}
      invariant rest <= m.Keys && RestoredFrom(g, v, rm, out, rest) && EntriesRight(g, v, rm, out)
      decreases |rest|
    {
      var k :| k in rest;
      var added := RestoreOne(g, v, rm, k);
      NewKeysComeFrom(g, v, rm, k);
      OneMoreKey(g, v, rm, out, rest, k, added);
      rest := rest - {k};
      out := out + added;
    }
    r := Map(false, out);
    assert out.Keys == AllKeys(g, m, rm);
    assert out == Restore(g, v, raw).entries;
  }

  method RestoreStruct(g: Rules, v: Value, raw: Raw) returns (r: Value)
    requires v.Struct? && raw.Mapping? && CaseDistinct(g, v)
    ensures r == Restore(g, v, raw)
    decreases v, 1
  {
    var fs := v.fields;
    var out: seq<Field> := [];
    for i := 0 to |fs|
      invariant |out| == i && forall j :: 0 <= j < i ==> out[j] == RestoreField(g, v, j, raw)
    {
      var f := fs[i];
      if f.exported {
        if f.squash {
          var w := RestoreKeyCase(g, f.value, raw);
          f := f.(value := w);
        } else if !f.skipped {
          var child := FindFold(g, raw.entries, f.name);
          if child.Some? {
            if f.value.Map? && f.value.isNil && IsEmptyMapping(child.value) {
              f := f.(value := Map(false, map[]));
            } else {
              var w := RestoreKeyCase(g, f.value, child.value);
              f := f.(value := w);
            }
          }
        }
      }
      out := out + [f];
    }
    return Struct(out);
  }

  method RestoreKeyCase(g: Rules, v: Value, raw: Raw) returns (r: Value)
    requires CaseDistinct(g, v)
    ensures r == Restore(g, v, raw)
    decreases v, 2
  {
    if raw == Null {
      return v;
    }
    match v {
      case Ptr(t) =>
        var w := RestoreKeyCase(g, t, raw);
        return Ptr(w);
      case Struct(_) =>
        if !raw.Mapping? {
          return v;
        }
        r := RestoreStruct(g, v, raw);
      case List(items) =>
        if !raw.Items? || |raw.items| != |items| {
          return v;
        }
        var out: seq<Value> := [];
        for i := 0 to |items|
          invariant |out| == i && forall j :: 0 <= j < i ==> out[j] == Restore(g, items[j], raw.items[j])
        {
          var w := RestoreKeyCase(g, items[i], raw.items[i]);
          out := out + [w];
        }
        return List(out);
      case Map(isNil, _) =>
        if isNil || !raw.Mapping? {
          return v;
        }
        r := RestoreMap(g, v, raw);
      case _ =>
        return v;
    }
  }

  // ---- What is restored ----

  /** The file's tree as a value. */
  function FromFile(raw: Raw): Value {
    match raw {
      case Null => Nil
      case Text(t) => Scalar(t)
      case Items(rs) => List(seq(|rs|, i requires 0 <= i < |rs| => FromFile(rs[i])))
      case Mapping(m) => Map(false, map k | k in m :: FromFile(m[k]))
    }
  }

  predicate KeysLowered(g: Rules, keys: set<string>, spelled: set<string>) {
    && (forall c :: c in spelled ==> g.lower(c) in keys)
    && (forall k :: k in keys ==> g.lower(k) == k)
  }

  /**
   What loading makes of a tree: its values, under lower-cased keys; of siblings that differ
   only in case, one. (Loading drops empty nested mappings, so there are none here.)
   */
  ghost predicate LoadedAs(g: Rules, v: Value, raw: Raw)
    decreases raw
  {
    match raw {
      case Null => v == Nil
      case Text(t) => v == Scalar(t)
      case Items(rs) => v.List? && |v.items| == |rs| && forall i :: 0 <= i < |rs| ==> LoadedAs(g, v.items[i], rs[i])
      case Mapping(m) =>
        && v.Map? && !v.isNil && KeysLowered(g, v.entries.Keys, m.Keys)
        && (forall k :: k in v.entries ==> exists c :: c in m && g.lower(c) == k && LoadedAs(g, v.entries[k], m[c]))
    }
  }

  /** mapstructure decodes into an interface what the file says. */
  ghost predicate DecodesAny(g: Rules) {
    forall v, raw :: g.decode(v, raw) == Some(FromFile(raw))
  }

  lemma {:induction false} LoadedIsCaseDistinct(g: Rules, v: Value, raw: Raw)
    requires LoadedAs(g, v, raw)
    ensures CaseDistinct(g, v)
    decreases raw
  {
    match raw {
      case Items(rs) =>
        forall i | 0 <= i < |rs|
          ensures CaseDistinct(g, v.items[i])
        {
          LoadedIsCaseDistinct(g, v.items[i], rs[i]);
        }
      case Mapping(m) =>
        forall k | k in v.entries
          ensures CaseDistinct(g, v.entries[k])
        {
          var c :| c in m && g.lower(c) == k && LoadedAs(g, v.entries[k], m[c]);
          LoadedIsCaseDistinct(g, v.entries[k], m[c]);
        }
      case _ =>
    }
  }

  // Every one of a mapping's keys comes back, with its own value.
  lemma {:induction false} EntryRestored(g: Rules, v: Value, raw: Raw, k: string, c: string)
    requires LoadedAs(g, v, raw) && DecodesAny(g) && raw.Mapping? && k in v.entries && c in NewKeys(g, raw.entries, k)
    ensures c in raw.entries && RestoreEntry(g, v, raw.entries, k, c) == FromFile(raw.entries[c])
    decreases raw, 0
  {
    var d :| d in raw.entries && g.lower(d) == k && LoadedAs(g, v.entries[k], raw.entries[d]);
    var spellings := Spellings(g, raw.entries, k);
    assert d in spellings;
    if |spellings| == 1 {
      assert |spellings - {d}| == 0;
      assert c == d;
      RestoresTheFile(g, v.entries[k], raw.entries[d]);
    }
  }

  /**
   For every tree of mappings with keys as loading leaves them, restoreKeyCase gives back the
   file's tree; keys that differ only in case all survive, each with its own value.
   */
  lemma {:induction false} RestoresTheFile(g: Rules, v: Value, raw: Raw)
    requires LoadedAs(g, v, raw) && DecodesAny(g)
    ensures Restore(g, v, raw) == FromFile(raw)
    decreases raw, 1
  {
    match raw {
      case Items(rs) =>
        forall i | 0 <= i < |rs|
          ensures Restore(g, v.items[i], rs[i]) == FromFile(rs[i])
        {
          RestoresTheFile(g, v.items[i], rs[i]);
        }
        assert Restore(g, v, raw).items == FromFile(raw).items;
      case Mapping(m) => RestoresMapping(g, v, raw);
      case _ =>
    }
  }

  lemma FileKeysComeBack(g: Rules, m: map<string, Value>, rm: map<string, Raw>)
    requires KeysLowered(g, m.Keys, rm.Keys) && forall k :: k in m ==> Spellings(g, rm, k) != {}
    ensures AllKeys(g, m, rm) == rm.Keys
  {
    forall c | c in rm
      ensures c in AllKeys(g, m, rm)
    {
      var k := g.lower(c);
      assert k in m && g.lower(k) == k;
      assert c in Spellings(g, rm, k) && c in NewKeys(g, rm, k);
    }
  }

  lemma LoadedKeysHaveSpellings(g: Rules, v: Value, raw: Raw, k: string)
    requires LoadedAs(g, v, raw) && raw.Mapping? && k in v.entries
    ensures Spellings(g, raw.entries, k) != {}
  {
    var d :| d in raw.entries && g.lower(d) == k && LoadedAs(g, v.entries[k], raw.entries[d]);
    assert d in Spellings(g, raw.entries, k);
  }

  lemma SameEntriesSameMap(g: Rules, v: Value, raw: Raw)
    requires v.Map? && !v.isNil && raw.Mapping? && AllKeys(g, v.entries, raw.entries) == raw.entries.Keys
    requires forall c :: c in raw.entries ==>
      RestoreEntry(g, v, raw.entries, SourceOf(g, v.entries, raw.entries, c), c) == FromFile(raw.entries[c])
    ensures Restore(g, v, raw) == FromFile(raw)
  {
    assert Restore(g, v, raw).entries == FromFile(raw).entries;
  }

  lemma {:induction false} RestoresMapping(g: Rules, v: Value, raw: Raw)
    requires LoadedAs(g, v, raw) && DecodesAny(g) && raw.Mapping?
    ensures Restore(g, v, raw) == FromFile(raw)
    decreases raw, 1, 0
  {
    var m, rm := v.entries, raw.entries;
    forall k | k in m
      ensures Spellings(g, rm, k) != {}
    {
      LoadedKeysHaveSpellings(g, v, raw, k);
    }
    FileKeysComeBack(g, m, rm);
    forall c | c in rm
      ensures RestoreEntry(g, v, rm, SourceOf(g, m, rm, c), c) == FromFile(rm[c])
    {
      EntryRestored(g, v, raw, SourceOf(g, m, rm, c), c);
    }
    SameEntriesSameMap(g, v, raw);
  }

  /** An entry that is not in the file is kept unchanged, and so is its key. */
  lemma OtherEntriesKept(g: Rules, v: Value, raw: Raw, k: string)
    requires v.Map? && !v.isNil && raw.Mapping? && CaseDistinct(g, v)
    requires k in v.entries && Spellings(g, raw.entries, k) == {}
    ensures var r := Restore(g, v, raw); r.Map? && k in r.entries && r.entries[k] == v.entries[k]
  {
    SourceIsUnique(g, v.entries, raw.entries, k, k);
  }

  /** Keys that differ only in case all come back, each with what the file has for it. */
  lemma CollidingKeysSurvive(g: Rules, v: Value, raw: Raw, k: string, c: string)
    requires v.Map? && !v.isNil && raw.Mapping? && CaseDistinct(g, v)
    requires k in v.entries && c in Spellings(g, raw.entries, k) && |Spellings(g, raw.entries, k)| > 1
    ensures var r := Restore(g, v, raw);
      r.Map? && c in r.entries && r.entries[c] == Decoded(g, v.entries[k], raw.entries[c])
  {
    SourceIsUnique(g, v.entries, raw.entries, k, c);
  }

  /** A struct's field has its part of the file back, and an empty mapping there is not lost. */
  lemma FieldRestored(g: Rules, v: Value, i: nat, raw: Raw, child: Raw)
    requires v.Struct? && i < |v.fields| && raw.Mapping? && DecodesAny(g)
    requires var f := v.fields[i];
      && f.exported && !f.squash && !f.skipped && LookupFold(g, raw.entries, f.name) == Some(child)
      && (LoadedAs(g, f.value, child) || (f.value == Map(true, map[]) && IsEmptyMapping(child)))
    ensures Restore(g, v, raw).fields[i] == v.fields[i].(value := FromFile(child))
  {
    var f := v.fields[i];
    if f.value == Map(true, map[]) && IsEmptyMapping(child) {
      assert FromFile(child).entries == map[];
    } else {
      RestoresTheFile(g, f.value, child);
    }
  }

  /** A key with one spelling in the file comes back under that spelling, its value restored from there. */
  lemma KeyComesBack(g: Rules, v: Value, raw: Raw, k: string, c: string)
    requires v.Map? && !v.isNil && raw.Mapping? && CaseDistinct(g, v)
    requires k in v.entries && Spellings(g, raw.entries, k) == {c}
    ensures var r := Restore(g, v, raw);
      r.Map? && c in r.entries && r.entries[c] == Restore(g, v.entries[k], raw.entries[c])
  {
    SourceIsUnique(g, v.entries, raw.entries, k, c);
  }

  // ---- Every part of a configuration ----

  // From a pointer to its target, from a struct to a field, from a list to an item.
  datatype Step = Deref | Member(i: nat) | Item(i: nat)

  /** The part of a value at the end of a path. */
  function Part(v: Value, path: seq<Step>): Option<Value>
    decreases |path|
  {
    if path == [] then Some(v)
    else match (v, path[0]) {
      case (Ptr(t), Deref) => Part(t, path[1..])
      case (Struct(fs), Member(i)) => if i < |fs| then Part(fs[i].value, path[1..]) else None
      case (List(items), Item(i)) => if i < |items| then Part(items[i], path[1..]) else None
      case _ => None
    }
  }

  /**
   What the file has for that part: a squashed field reads its parent's mapping, another exported
   one that is not skipped its own entry there, and an item its place in a list of the same length.
   */
  ghost function FilePart(g: Rules, v: Value, raw: Raw, path: seq<Step>): Option<Raw>
    decreases |path|
  {
    if path == [] then Some(raw)
    else match (v, path[0]) {
      case (Ptr(t), Deref) => FilePart(g, t, raw, path[1..])
      case (Struct(fs), Member(i)) =>
        if i >= |fs| || !fs[i].exported || !raw.Mapping? then None
        else if fs[i].squash then FilePart(g, fs[i].value, raw, path[1..])
        else if fs[i].skipped || LookupFold(g, raw.entries, fs[i].name).None? then None
        else FilePart(g, fs[i].value, LookupFold(g, raw.entries, fs[i].name).value, path[1..])
      case (List(items), Item(i)) =>
        if raw.Items? && i < |raw.items| == |items| then FilePart(g, items[i], raw.items[i], path[1..]) else None
      case _ => None
    }
  }

  lemma RestoredNull(g: Rules, v: Value)
    ensures Restore(g, v, Null) == v
  {
  }

  lemma {:induction false} PartIsRestored(g: Rules, v: Value, raw: Raw, path: seq<Step>)
    requires Part(v, path).Some? && FilePart(g, v, raw, path).Some?
    requires var w := Part(v, path).value; !(w.Map? && w.isNil && IsEmptyMapping(FilePart(g, v, raw, path).value))
    ensures Part(Restore(g, v, raw), path)
         == Some(Restore(g, Part(v, path).value, FilePart(g, v, raw, path).value))
    decreases |path|
  {
    if path != [] {
      var rest := path[1..];
      match (v, path[0]) {
        case (Ptr(t), Deref) =>
          PartIsRestored(g, t, raw, rest);
          RestoredNull(g, t);
        case (Struct(fs), Member(i)) =>
          if fs[i].squash {
            PartIsRestored(g, fs[i].value, raw, rest);
          } else {
            PartIsRestored(g, fs[i].value, LookupFold(g, raw.entries, fs[i].name).value, rest);
          }
        case (List(items), Item(i)) => PartIsRestored(g, items[i], raw.items[i], rest);
        case _ =>
      }
    }
  }

  /**
   Wherever a configuration has a tree that loading made of a part of the file, behind any
   pointers, structs and lists, that part of the file comes back as it is there.
   */
  lemma PartComesBack(g: Rules, v: Value, raw: Raw, path: seq<Step>)
    requires Part(v, path).Some? && FilePart(g, v, raw, path).Some? && DecodesAny(g)
    requires LoadedAs(g, Part(v, path).value, FilePart(g, v, raw, path).value)
    ensures Part(Restore(g, v, raw), path) == Some(FromFile(FilePart(g, v, raw, path).value))
  {
    PartIsRestored(g, v, raw, path);
    RestoresTheFile(g, Part(v, path).value, FilePart(g, v, raw, path).value);
  }

  /** A part that the file has nothing for is kept. */
  lemma {:induction false} OtherPartsKept(g: Rules, v: Value, raw: Raw, path: seq<Step>)
    requires Part(v, path).Some? && FilePart(g, v, raw, path).None?
    ensures Part(Restore(g, v, raw), path) == Part(v, path)
    decreases |path|
  {
    var rest := path[1..];
    match (v, path[0]) {
      case (Ptr(t), Deref) =>
        OtherPartsKept(g, t, raw, rest);
        RestoredNull(g, t);
      case (Struct(fs), Member(i)) =>
        if raw.Mapping? && fs[i].exported {
          if fs[i].squash {
            OtherPartsKept(g, fs[i].value, raw, rest);
          } else if !fs[i].skipped && LookupFold(g, raw.entries, fs[i].name).Some? {
            OtherPartsKept(g, fs[i].value, LookupFold(g, raw.entries, fs[i].name).value, rest);
          }
        }
      case (List(items), Item(i)) =>
        if raw.Items? && |raw.items| == |items| {
          OtherPartsKept(g, items[i], raw.items[i], rest);
        }
      case _ =>
    }
  }
}
