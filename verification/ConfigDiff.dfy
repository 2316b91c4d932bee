/**
 Which parts of the configuration a reload changed. A configuration is a tree of Go values;
 diffValue walks two of them side by side and names the key paths that differ, in dotted
 notation; the components ask with Any whether something at or below a path changed.
 */
module ConfigDiff {
  import opened Wrappers
  import opened Strings

  datatype Field = Field(key: string, exported: bool, typ: Type)

  // Key "" is a squashed field: its keys are those of its parent.
  datatype Type =
    | StructOf(fields: seq<Field>)
    | ListOf(elem: Type)
    | MapOf(elem: Type)
    | PtrTo(elem: Type)
    | AnyType
    | Basic(name: string)

  // A nil slice or map holds nothing.
  datatype Value =
    | Struct(values: seq<Value>)
    | List(nilSlice: bool, items: seq<Value>)
    | Map(nilMap: bool, entries: map<string, Value>)
    | Ptr(target: Option<Value>)
    | Any(dynamic: Option<Type>, content: Value)
    | Leaf(text: string)

  predicate HasType(t: Type, v: Value)
    decreases v
  {
    match (t, v) {
      case (StructOf(fs), Struct(vs)) => |fs| == |vs| && forall i :: 0 <= i < |vs| ==> HasType(fs[i].typ, vs[i])
      case (ListOf(e), List(isNil, vs)) => (isNil ==> vs == []) && forall i :: 0 <= i < |vs| ==> HasType(e, vs[i])
      case (MapOf(e), Map(isNil, m)) => (isNil ==> m == map[]) && forall k :: k in m ==> HasType(e, m[k])
      case (PtrTo(e), Ptr(Some(w))) => HasType(e, w)
      case (AnyType, Any(Some(d), w)) => HasType(d, w)
      case (PtrTo(_), Ptr(None)) => true
      case (AnyType, Any(None, w)) => w == Leaf("")
      case (Basic(_), Leaf(_)) => true
      case _ => false
    }
  }

  /** equalValues on two values of one static type. */
  predicate EqualValues(t: Type, a: Value, b: Value)
    requires HasType(t, a) && HasType(t, b)
    decreases a
  {
    match t {
      case StructOf(fs) =>
        forall i :: 0 <= i < |fs| && fs[i].exported ==> EqualValues(fs[i].typ, a.values[i], b.values[i])
      case ListOf(e) =>
        |a.items| == |b.items| && forall i :: 0 <= i < |a.items| ==> EqualValues(e, a.items[i], b.items[i])
      case MapOf(e) =>
        |a.entries| == |b.entries|
        && forall k :: k in a.entries ==> k in b.entries && EqualValues(e, a.entries[k], b.entries[k])
      case PtrTo(e) =>
        if a.target.None? || b.target.None? then a.target.None? == b.target.None?
        else EqualValues(e, a.target.value, b.target.value)
      case AnyType =>
        if a.dynamic.None? || b.dynamic.None? then a.dynamic.None? == b.dynamic.None?
        else a.dynamic == b.dynamic && EqualValues(a.dynamic.value, a.content, b.content)
      case Basic(_) => a.text == b.text
    }
  }

  /** A value without what does not count: unexported fields, and nil where it means empty. */
  function Norm(t: Type, v: Value): Value
    requires HasType(t, v)
    decreases v
  {
    match t {
      case StructOf(fs) =>
        Struct(seq(|fs|, i requires 0 <= i < |fs| => if fs[i].exported then Norm(fs[i].typ, v.values[i]) else Leaf("")))
      case ListOf(e) =>
        List(false, seq(|v.items|, i requires 0 <= i < |v.items| => Norm(e, v.items[i])))
      case MapOf(e) => Map(false, map k | k in v.entries :: Norm(e, v.entries[k]))
      case PtrTo(e) => if v.target.None? then v else Ptr(Some(Norm(e, v.target.value)))
      case AnyType => if v.dynamic.None? then v else Any(v.dynamic, Norm(v.dynamic.value, v.content))
      case Basic(_) => v
    }
  }

  lemma {:induction false} EqualIsSameNorm(t: Type, a: Value, b: Value)
    requires HasType(t, a) && HasType(t, b)
    ensures EqualValues(t, a, b) <==> Norm(t, a) == Norm(t, b)
    decreases a
  {
    match t {
      case StructOf(fs) => EqualStructs(t, a, b);
      case ListOf(e) => EqualLists(t, a, b);
      case MapOf(e) => EqualMaps(t, a, b);
      case PtrTo(e) =>
        if a.target.Some? && b.target.Some? {
          EqualIsSameNorm(e, a.target.value, b.target.value);
        }
      case AnyType =>
        if a.dynamic.Some? && b.dynamic.Some? && a.dynamic == b.dynamic {
          EqualIsSameNorm(a.dynamic.value, a.content, b.content);
        }
      case Basic(_) =>
    }
  }

  lemma {:induction false} EqualStructs(t: Type, a: Value, b: Value)
    requires HasType(t, a) && HasType(t, b) && t.StructOf?
    ensures EqualValues(t, a, b) <==> Norm(t, a) == Norm(t, b)
    decreases a, 0
  {
    var x, y := Norm(t, a).values, Norm(t, b).values;
    forall i | 0 <= i < |t.fields|
      ensures x[i] == y[i] <==> (t.fields[i].exported ==> EqualValues(t.fields[i].typ, a.values[i], b.values[i]))
    {
      EqualIsSameNorm(t.fields[i].typ, a.values[i], b.values[i]);
    }
    assert x == y <==> forall i :: 0 <= i < |t.fields| ==> x[i] == y[i];
  }

  lemma {:induction false} EqualLists(t: Type, a: Value, b: Value)
    requires HasType(t, a) && HasType(t, b) && t.ListOf?
    ensures EqualValues(t, a, b) <==> Norm(t, a) == Norm(t, b)
    decreases a, 0
  {
    var x, y := Norm(t, a).items, Norm(t, b).items;
    forall i | 0 <= i < |x| && |x| == |y|
      ensures x[i] == y[i] <==> EqualValues(t.elem, a.items[i], b.items[i])
    {
      EqualIsSameNorm(t.elem, a.items[i], b.items[i]);
    }
    assert x == y <==> |x| == |y| && forall i :: 0 <= i < |x| ==> x[i] == y[i];
  }

  lemma SameKeys(a: map<string, Value>, b: map<string, Value>)
    requires |a| == |b| && forall k :: k in a ==> k in b
    ensures a.Keys == b.Keys
  {
    assert a.Keys <= b.Keys && |b.Keys - a.Keys| == |b.Keys| - |a.Keys|;
  }

  lemma {:induction false} EqualMaps(t: Type, a: Value, b: Value)
    requires HasType(t, a) && HasType(t, b) && t.MapOf?
    ensures EqualValues(t, a, b) <==> Norm(t, a) == Norm(t, b)
    decreases a, 0
  {
    var m, n := a.entries, b.entries;
    var x, y := Norm(t, a).entries, Norm(t, b).entries;
    assert x.Keys == m.Keys && y.Keys == n.Keys;
    forall k | k in m && k in n
      ensures x[k] == y[k] <==> EqualValues(t.elem, m[k], n[k])
    {
      EqualIsSameNorm(t.elem, m[k], n[k]);
    }
    if EqualValues(t, a, b) {
      SameKeys(m, n);
    }
  }

  /** Equal is an equivalence relation on the values of a type. */
  lemma EqualIsEquivalence(t: Type, a: Value, b: Value, c: Value)
    requires HasType(t, a) && HasType(t, b) && HasType(t, c)
    ensures EqualValues(t, a, a)
    ensures EqualValues(t, a, b) ==> EqualValues(t, b, a)
    ensures EqualValues(t, a, b) && EqualValues(t, b, c) ==> EqualValues(t, a, c)
  {
    EqualIsSameNorm(t, a, a);
    EqualIsSameNorm(t, a, b);
    EqualIsSameNorm(t, b, a);
    EqualIsSameNorm(t, b, c);
    EqualIsSameNorm(t, a, c);
  }

  /**
   What counts. Texts, dynamic types, keys, lengths, and whether a pointer is nil do; nil lists and
   maps are empty ones, and unexported fields do not matter.
   */
  lemma WhatCounts(t: Type, a: Value, b: Value)
    requires HasType(t, a) && HasType(t, b)
    ensures t.Basic? ==> (EqualValues(t, a, b) <==> a.text == b.text)
    ensures t.PtrTo? && EqualValues(t, a, b) ==> a.target.None? == b.target.None?
    ensures t.AnyType? && EqualValues(t, a, b) ==> a.dynamic == b.dynamic
    ensures t.ListOf? ==>
      (a.items == b.items ==> EqualValues(t, a, b)) && (EqualValues(t, a, b) ==> |a.items| == |b.items|)
    ensures t.MapOf? ==>
      (a.entries == b.entries ==> EqualValues(t, a, b)) && (EqualValues(t, a, b) ==> a.entries.Keys == b.entries.Keys)
    ensures t.StructOf? && (forall i :: 0 <= i < |t.fields| && t.fields[i].exported ==> a.values[i] == b.values[i]) ==>
      EqualValues(t, a, b)
    ensures t.StructOf? && EqualValues(t, a, b) ==>
      forall i :: 0 <= i < |t.fields| && t.fields[i].exported ==> EqualValues(t.fields[i].typ, a.values[i], b.values[i])
  {
    match t {
      case StructOf(fs) =>
        forall i | 0 <= i < |fs|
          ensures EqualValues(fs[i].typ, a.values[i], a.values[i])
        {
          EqualIsEquivalence(fs[i].typ, a.values[i], a.values[i], a.values[i]);
        }
      case ListOf(e) =>
        forall i | 0 <= i < |a.items|
          ensures EqualValues(e, a.items[i], a.items[i])
        {
          EqualIsEquivalence(e, a.items[i], a.items[i], a.items[i]);
        }
      case MapOf(e) =>
        forall k | k in a.entries
          ensures EqualValues(e, a.entries[k], a.entries[k])
        {
          EqualIsEquivalence(e, a.entries[k], a.entries[k], a.entries[k]);
        }
        if EqualValues(t, a, b) {
          SameKeys(a.entries, b.entries);
        }
      case _ =>
    }
  }

  // ---- Naming the changed paths ----

  function SubPath(path: string, key: string): string {
    if key == "" then path else path + "." + key
  }

  /** The keys a field adds to its parent; a squashed one passes its own on. */
  function FieldKeys(f: Field): set<string> {
    if !f.exported then {} else if f.key != "" then {f.key} else Keys(f.typ)
  }

  function Keys(t: Type): set<string> {
    match t {
      case StructOf(fs) => set i, k | 0 <= i < |fs| && k in FieldKeys(fs[i]) :: k
      case PtrTo(e) => Keys(e)
      case _ => {}
    }
  }

  predicate DotFree(s: string) {
    forall i :: 0 <= i < |s| ==> s[i] != '.'
  }

  /** Sibling keys are distinct and dot-free, and no interface is met outside a collection. */
  ghost predicate WellKeyed(t: Type) {
    match t {
      case StructOf(fs) =>
        && (forall i :: 0 <= i < |fs| ==> DotFree(fs[i].key) && (fs[i].exported ==> WellKeyed(fs[i].typ)))
        && (forall i, j :: 0 <= i < j < |fs| ==> FieldKeys(fs[i]) !! FieldKeys(fs[j]))
      case PtrTo(e) => WellKeyed(e)
      case AnyType => false
      case _ => true
    }
  }

  function Diff(path: string, t: Type, a: Value, b: Value): seq<string>
    requires HasType(t, a) && HasType(t, b)
    decreases a
  {
    match t {
      case StructOf(fs) => DiffFields(path, t, a, b, |fs|)
      case PtrTo(e) =>
        if a.target.Some? && b.target.Some? then Diff(path, e, a.target.value, b.target.value)
        else if a.target.Some? || b.target.Some? then [path]
        else []
      case AnyType =>
        if a.dynamic.Some? && a.dynamic == b.dynamic then Diff(path, a.dynamic.value, a.content, b.content)
        else if a.dynamic.Some? || b.dynamic.Some? then [path]
        else []
      case _ => if EqualValues(t, a, b) then [] else [path]
    }
  }

  function DiffField(path: string, t: Type, a: Value, b: Value, i: nat): seq<string>
    requires HasType(t, a) && HasType(t, b) && t.StructOf? && i < |t.fields|
    decreases a, 0
  {
    var f := t.fields[i];
    if f.exported then Diff(SubPath(path, f.key), f.typ, a.values[i], b.values[i]) else []
  }

  function DiffFields(path: string, t: Type, a: Value, b: Value, n: nat): seq<string>
    requires HasType(t, a) && HasType(t, b) && t.StructOf? && n <= |t.fields|
    decreases a, n
  {
    if n == 0 then [] else DiffFields(path, t, a, b, n - 1) + DiffField(path, t, a, b, n - 1)
  }

  /** diffValue: appends the differing paths. */
  method DiffValue(path: string, t: Type, a: Value, b: Value, sofar: seq<string>) returns (out: seq<string>)
    requires HasType(t, a) && HasType(t, b)
    ensures out == sofar + Diff(path, t, a, b)
    decreases a
  {
    out := sofar;
    match t {
      case StructOf(fs) =>
        for i := 0 to |fs|
          invariant out == sofar + DiffFields(path, t, a, b, i)
        {
          if !fs[i].exported {
            continue;
          }
          var sub := path;
          if fs[i].key != "" {
            sub := path + "." + fs[i].key;
          }
          out := DiffValue(sub, fs[i].typ, a.values[i], b.values[i], out);
        }
      case ListOf(_) | MapOf(_) =>
        if !EqualValues(t, a, b) {
          out := out + [path];
        }
      case PtrTo(e) =>
        if a.target.None? || b.target.None? {
          if a.target.None? != b.target.None? {
            out := out + [path];
          }
          return;
        }
        out := DiffValue(path, e, a.target.value, b.target.value, out);
      case AnyType =>
        if a.dynamic != b.dynamic {
          out := out + [path];
        } else if a.dynamic.Some? {
          out := DiffValue(path, a.dynamic.value, a.content, b.content, out);
        }
      case Basic(_) =>
        if a.text != b.text {
          out := out + [path];
        }
    }
  }

  // ---- Asking for a path ----

  /** Whether a changed path is the given one or lies below it. */
  predicate Under(p: string, pre: string) {
    p == pre || pre + "." <= p
  }

  ghost predicate Hits(changes: seq<string>, pre: string) {
    exists p :: p in changes && Under(p, pre)
  }

  method AnyChanged(changes: seq<string>, prefixes: seq<string>) returns (found: bool)
    ensures found <==> exists pre :: pre in prefixes && Hits(changes, pre)
  {
    for i := 0 to |changes|
      invariant forall p, pre :: p in changes[..i] && pre in prefixes ==> !Under(p, pre)
    {
      for j := 0 to |prefixes|
        invariant forall pre :: pre in prefixes[..j] ==> !Under(changes[i], pre)
      {
        if Under(changes[i], prefixes[j]) {
          assert changes[i] in changes && Hits(changes, prefixes[j]) && prefixes[j] in prefixes;
          return true;
        }
      }
    }
    assert changes[..|changes|] == changes;
    return false;
  }

  datatype Typed = Typed(typ: Type, value: Value)

  /** The part of a value at one of its keys. */
  function StepTo(t: Type, v: Value, key: string): (r: Option<Typed>)
    requires HasType(t, v)
    ensures r.Some? ==> HasType(r.value.typ, r.value.value)
    decreases t
  {
    match t {
      case StructOf(fs) => StepField(t, v, key, |fs|)
      case PtrTo(e) => if v.target.None? then None else StepTo(e, v.target.value, key)
      case _ => None
    }
  }

  function StepField(t: Type, v: Value, key: string, n: nat): (r: Option<Typed>)
    requires HasType(t, v) && t.StructOf? && n <= |t.fields|
    ensures r.Some? ==> HasType(r.value.typ, r.value.value)
    decreases t, n
  {
    if n == 0 then None
    else
      var f, w := t.fields[n - 1], v.values[n - 1];
      if key !in FieldKeys(f) then StepField(t, v, key, n - 1)
      else if f.key != "" then Some(Typed(f.typ, w))
      else StepTo(f.typ, w, key)
  }

  /** The part of a value at a path below it; None where a nil pointer or nothing is met. */
  function Subtree(t: Type, v: Value, keys: seq<string>): (r: Option<Typed>)
    requires HasType(t, v)
    ensures r.Some? ==> HasType(r.value.typ, r.value.value)
    decreases |keys|
  {
    if keys == [] then Some(Typed(t, v))
    else
      var s := StepTo(t, v, keys[0]);
      if s.None? then None else Subtree(s.value.typ, s.value.value, keys[1..])
  }

  function Join(path: string, keys: seq<string>): string
    decreases |keys|
  {
    if keys == [] then path else Join(path + "." + keys[0], keys[1..])
  }

  // ---- Paths as strings ----

  lemma DotInside(x: string, path: string, k: string, l: string)
    requires Under(x, path + "." + k) && Under(x, path + "." + l) && |k| < |l|
    ensures !DotFree(l)
  {
    var n := |path| + 1;
    assert x[n..n + |l|] == l;
    assert x[n + |k|] == '.' && l[|k|] == x[n + |k|];
  }

  /** Paths below different keys of one parent are apart. */
  lemma Apart(x: string, path: string, k: string, l: string)
    requires Under(x, path + "." + k) && Under(x, path + "." + l) && DotFree(k) && DotFree(l)
    ensures k == l
  {
    if |k| < |l| {
      DotInside(x, path, k, l);
    } else if |l| < |k| {
      DotInside(x, path, l, k);
    } else {
      var n := |path| + 1;
      assert x[n..n + |k|] == k && x[n..n + |l|] == l;
    }
  }

  lemma UnderIsTransitive(a: string, b: string, c: string)
    requires Under(a, b) && Under(b, c)
    ensures Under(a, c)
  {
  }

  lemma KeyIsUnder(path: string, k: string)
    ensures Under(path + "." + k, path)
  {
    assert path + "." <= path + "." + k;
  }

  lemma {:induction false} JoinIsUnder(path: string, keys: seq<string>)
    ensures Under(Join(path, keys), path)
    decreases |keys|
  {
    if keys != [] {
      JoinIsUnder(path + "." + keys[0], keys[1..]);
      KeyIsUnder(path, keys[0]);
      UnderIsTransitive(Join(path, keys), path + "." + keys[0], path);
    }
  }

  // ---- The paths named are the paths that differ ----

  predicate FieldHas(path: string, t: Type, a: Value, b: Value, i: nat, x: string)
    requires HasType(t, a) && HasType(t, b) && t.StructOf?
  {
    i < |t.fields| && x in DiffField(path, t, a, b, i)
  }

  lemma {:induction false} FieldsMembers(path: string, t: Type, a: Value, b: Value, n: nat, x: string)
    requires HasType(t, a) && HasType(t, b) && t.StructOf? && n <= |t.fields|
    ensures x in DiffFields(path, t, a, b, n) <==> exists i :: 0 <= i < n && FieldHas(path, t, a, b, i, x)
    decreases n
  {
    if n > 0 {
      FieldsMembers(path, t, a, b, n - 1, x);
      assert x in DiffFields(path, t, a, b, n) <==>
        x in DiffFields(path, t, a, b, n - 1) || FieldHas(path, t, a, b, n - 1, x);
    }
  }

  ghost predicate AtOrBelowKey(x: string, path: string, keys: set<string>) {
    x == path || exists k :: k in keys && Under(x, path + "." + k)
  }

  /** A named path is that of the value or lies below one of its keys. */
  lemma {:induction false} NamedIsBelow(path: string, t: Type, a: Value, b: Value, x: string)
    requires HasType(t, a) && HasType(t, b) && WellKeyed(t) && x in Diff(path, t, a, b)
    ensures AtOrBelowKey(x, path, Keys(t))
    decreases a
  {
    match t {
      case StructOf(fs) =>
        FieldsMembers(path, t, a, b, |fs|, x);
        var i :| 0 <= i < |fs| && FieldHas(path, t, a, b, i, x);
        var f := fs[i];
        var sub := SubPath(path, f.key);
        NamedIsBelow(sub, f.typ, a.values[i], b.values[i], x);
        assert forall k :: k in FieldKeys(f) ==> k in Keys(t);
        if f.key != "" {
          assert f.key in FieldKeys(f);
          if x != sub {
            var k :| k in Keys(f.typ) && Under(x, sub + "." + k);
            KeyIsUnder(sub, k);
            UnderIsTransitive(x, sub + "." + k, sub);
          }
        }
      case PtrTo(e) =>
        if a.target.Some? && b.target.Some? {
          NamedIsBelow(path, e, a.target.value, b.target.value, x);
        }
      case _ =>
    }
  }

  /** No path is named exactly when the values are equal. */
  lemma {:induction false} NothingNamedIffEqual(path: string, t: Type, a: Value, b: Value)
    requires HasType(t, a) && HasType(t, b)
    ensures Diff(path, t, a, b) == [] <==> EqualValues(t, a, b)
    decreases a
  {
    match t {
      case StructOf(fs) => NoFieldNamedIffEqual(path, t, a, b);
      case PtrTo(e) =>
        if a.target.Some? && b.target.Some? {
          NothingNamedIffEqual(path, e, a.target.value, b.target.value);
        }
      case AnyType =>
        if a.dynamic.Some? && a.dynamic == b.dynamic {
          NothingNamedIffEqual(path, a.dynamic.value, a.content, b.content);
        }
      case _ =>
    }
  }

  lemma {:induction false} NoFieldNamedIffEqual(path: string, t: Type, a: Value, b: Value)
    requires HasType(t, a) && HasType(t, b) && t.StructOf?
    ensures Diff(path, t, a, b) == [] <==> EqualValues(t, a, b)
    decreases a, 0
  {
    var fs := t.fields;
    forall i | 0 <= i < |fs|
      ensures DiffField(path, t, a, b, i) == [] <==>
        (fs[i].exported ==> EqualValues(fs[i].typ, a.values[i], b.values[i]))
    {
      NothingNamedIffEqual(SubPath(path, fs[i].key), fs[i].typ, a.values[i], b.values[i]);
    }
    FieldsEmpty(path, t, a, b);
    if EqualValues(t, a, b) {
      assert forall i :: 0 <= i < |fs| ==> DiffField(path, t, a, b, i) == [];
    } else {
      var i :| 0 <= i < |fs| && fs[i].exported && !EqualValues(fs[i].typ, a.values[i], b.values[i]);
      FieldNames(path, t, a, b, i, DiffField(path, t, a, b, i)[0]);
    }
  }

  lemma FieldsEmpty(path: string, t: Type, a: Value, b: Value)
    requires HasType(t, a) && HasType(t, b) && t.StructOf?
    ensures Diff(path, t, a, b) == [] <==> forall i :: 0 <= i < |t.fields| ==> DiffField(path, t, a, b, i) == []
  {
    var n, d := |t.fields|, Diff(path, t, a, b);
    if d != [] {
      FieldsMembers(path, t, a, b, n, d[0]);
      var i :| 0 <= i < n && FieldHas(path, t, a, b, i, d[0]);
      assert DiffField(path, t, a, b, i) != [];
    } else {
      forall i | 0 <= i < n
        ensures DiffField(path, t, a, b, i) == []
      {
        if DiffField(path, t, a, b, i) != [] {
          FieldNames(path, t, a, b, i, DiffField(path, t, a, b, i)[0]);
        }
      }
    }
  }

  lemma {:induction false} StepFieldFinds(t: Type, v: Value, key: string, n: nat)
    requires HasType(t, v) && t.StructOf? && n <= |t.fields| && StepField(t, v, key, n).Some?
    ensures exists i :: 0 <= i < n && key in FieldKeys(t.fields[i])
    decreases n
  {
    if key !in FieldKeys(t.fields[n - 1]) {
      StepFieldFinds(t, v, key, n - 1);
    }
  }

  // Only one field has the key, so that is where the step leads.
  lemma {:induction false} StepIsField(t: Type, v: Value, key: string, i: nat, n: nat)
    requires HasType(t, v) && t.StructOf? && WellKeyed(t) && i < n <= |t.fields| && key in FieldKeys(t.fields[i])
    ensures var f, w := t.fields[i], v.values[i];
      StepField(t, v, key, n) == if f.key != "" then Some(Typed(f.typ, w)) else StepTo(f.typ, w, key)
    decreases n
  {
    if i < n - 1 {
      assert FieldKeys(t.fields[i]) !! FieldKeys(t.fields[n - 1]);
      StepIsField(t, v, key, i, n - 1);
    }
  }

  // Below one key of a struct, only the field that has it is named.
  lemma OtherFieldsApart(path: string, t: Type, a: Value, b: Value, key: string, i: nat, x: string)
    requires HasType(t, a) && HasType(t, b) && t.StructOf? && WellKeyed(t) && i < |t.fields|
    requires key !in FieldKeys(t.fields[i]) && DotFree(key) && Under(x, path + "." + key)
    ensures x !in DiffField(path, t, a, b, i)
  {
    var f := t.fields[i];
    if x in DiffField(path, t, a, b, i) {
      var sub := SubPath(path, f.key);
      NamedIsBelow(sub, f.typ, a.values[i], b.values[i], x);
      if f.key != "" {
        if x != sub {
          var k :| k in Keys(f.typ) && Under(x, sub + "." + k);
          KeyIsUnder(sub, k);
          UnderIsTransitive(x, sub + "." + k, sub);
        }
        Apart(x, path, f.key, key);
      } else if x != path {
        var k :| k in Keys(f.typ) && Under(x, path + "." + k);
        KeysDotFree(f.typ, k);
        Apart(x, path, k, key);
      }
    }
  }

  lemma {:induction false} KeysDotFree(t: Type, k: string)
    requires WellKeyed(t) && k in Keys(t)
    ensures DotFree(k)
  {
    match t {
      case StructOf(fs) =>
        var i :| 0 <= i < |fs| && k in FieldKeys(fs[i]);
        if fs[i].key == "" {
          KeysDotFree(fs[i].typ, k);
        }
      case PtrTo(e) => KeysDotFree(e, k);
      case _ =>
    }
  }

  /** Below a key, a value's named paths are those of its part there. */
  lemma {:induction false} StepKeepsNames(path: string, t: Type, a: Value, b: Value, key: string, x: string)
    requires HasType(t, a) && HasType(t, b) && WellKeyed(t) && DotFree(key) && Under(x, path + "." + key)
    requires StepTo(t, a, key).Some? && StepTo(t, b, key).Some?
    ensures var u, v := StepTo(t, a, key).value, StepTo(t, b, key).value;
      u.typ == v.typ && WellKeyed(u.typ)
      && (x in Diff(path, t, a, b) <==> x in Diff(path + "." + key, u.typ, u.value, v.value))
    decreases a
  {
    if t.PtrTo? {
      StepKeepsNames(path, t.elem, a.target.value, b.target.value, key, x);
    } else {
      var fs := t.fields;
      StepFieldFinds(t, a, key, |fs|);
      var i :| 0 <= i < |fs| && key in FieldKeys(fs[i]);
      StepIsField(t, a, key, i, |fs|);
      StepIsField(t, b, key, i, |fs|);
      OneFieldNames(path, t, a, b, key, i, x);
      if fs[i].key == "" {
        StepKeepsNames(path, fs[i].typ, a.values[i], b.values[i], key, x);
      }
    }
  }

  lemma OneFieldNames(path: string, t: Type, a: Value, b: Value, key: string, i: nat, x: string)
    requires HasType(t, a) && HasType(t, b) && t.StructOf? && WellKeyed(t) && i < |t.fields|
    requires key in FieldKeys(t.fields[i]) && DotFree(key) && Under(x, path + "." + key)
    ensures x in Diff(path, t, a, b) <==> x in DiffField(path, t, a, b, i)
  {
    forall m | 0 <= m < |t.fields| && m != i
      ensures !FieldHas(path, t, a, b, m, x)
    {
      assert m < i ==> FieldKeys(t.fields[m]) !! FieldKeys(t.fields[i]);
      assert i < m ==> FieldKeys(t.fields[i]) !! FieldKeys(t.fields[m]);
      OtherFieldsApart(path, t, a, b, key, m, x);
    }
    FieldsMembers(path, t, a, b, |t.fields|, x);
    assert FieldHas(path, t, a, b, i, x) <==> x in DiffField(path, t, a, b, i);
  }

  // Below a key both sides have, what is named is named in the part there.
  lemma PartsNames(path: string, t: Type, a: Value, b: Value, key: string, p: string)
    requires HasType(t, a) && HasType(t, b) && WellKeyed(t) && DotFree(key) && Under(p, path + "." + key)
    requires StepTo(t, a, key).Some? && StepTo(t, b, key).Some?
    ensures var u, v := StepTo(t, a, key).value, StepTo(t, b, key).value;
      u.typ == v.typ && WellKeyed(u.typ)
      && forall x :: Under(x, p) ==>
          (x in Diff(path, t, a, b) <==> x in Diff(path + "." + key, u.typ, u.value, v.value))
  {
    StepKeepsNames(path, t, a, b, key, p);
    var u, v := StepTo(t, a, key).value, StepTo(t, b, key).value;
    forall x | Under(x, p)
      ensures x in Diff(path, t, a, b) <==> x in Diff(path + "." + key, u.typ, u.value, v.value)
    {
      UnderIsTransitive(x, p, path + "." + key);
      StepKeepsNames(path, t, a, b, key, x);
    }
  }

  /**
   For every path that exists in both configurations, Any is false exactly when the subtrees
   there are Equal.
   */
  lemma {:induction false} AnyIffSubtreesDiffer(path: string, t: Type, a: Value, b: Value, keys: seq<string>)
    requires HasType(t, a) && HasType(t, b) && WellKeyed(t) && forall k :: k in keys ==> DotFree(k)
    requires Subtree(t, a, keys).Some? && Subtree(t, b, keys).Some?
    ensures var u, v := Subtree(t, a, keys).value, Subtree(t, b, keys).value;
      u.typ == v.typ && (!Hits(Diff(path, t, a, b), Join(path, keys)) <==> EqualValues(u.typ, u.value, v.value))
    decreases |keys|
  {
    var d, p := Diff(path, t, a, b), Join(path, keys);
    if keys == [] {
      NothingNamedIffEqual(path, t, a, b);
      if d != [] {
        NamedIsUnder(path, t, a, b, d[0]);
      }
    } else {
      var key := keys[0];
      var u, v := StepTo(t, a, key).value, StepTo(t, b, key).value;
      var sub := path + "." + key;
      JoinIsUnder(sub, keys[1..]);
      PartsNames(path, t, a, b, key, p);
      AnyIffSubtreesDiffer(sub, u.typ, u.value, v.value, keys[1..]);
      assert Hits(d, p) <==> Hits(Diff(sub, u.typ, u.value, v.value), p);
    }
  }

  /**
   Past a nil pointer on one side only, that pointer's path is named, and nothing below a key.
   */
  lemma {:induction false} OneSidedStep(path: string, t: Type, a: Value, b: Value, key: string, x: string)
    requires HasType(t, a) && HasType(t, b) && WellKeyed(t) && DotFree(key)
    requires StepTo(t, a, key).Some? != StepTo(t, b, key).Some?
    ensures path in Diff(path, t, a, b)
    ensures Under(x, path + "." + key) ==> x !in Diff(path, t, a, b)
    decreases a
  {
    if t.PtrTo? {
      if a.target.Some? && b.target.Some? {
        OneSidedStep(path, t.elem, a.target.value, b.target.value, key, x);
      }
    } else {
      var i := SquashedField(t, a, b, key);
      OneSidedStep(path, t.fields[i].typ, a.values[i], b.values[i], key, x);
      var d := Diff(path, t.fields[i].typ, a.values[i], b.values[i]);
      assert d == DiffField(path, t, a, b, i);
      FieldNames(path, t, a, b, i, path);
      if Under(x, path + "." + key) {
        OneFieldNames(path, t, a, b, key, i, x);
      }
    }
  }

  lemma FieldNames(path: string, t: Type, a: Value, b: Value, i: nat, x: string)
    requires HasType(t, a) && HasType(t, b) && t.StructOf? && i < |t.fields| && x in DiffField(path, t, a, b, i)
    ensures x in Diff(path, t, a, b)
  {
    FieldsMembers(path, t, a, b, |t.fields|, x);
    assert FieldHas(path, t, a, b, i, x);
  }

  // In a struct such a pointer is that of a squashed field.
  lemma SquashedField(t: Type, a: Value, b: Value, key: string) returns (i: nat)
    requires HasType(t, a) && HasType(t, b) && WellKeyed(t) && t.StructOf?
    requires StepTo(t, a, key).Some? != StepTo(t, b, key).Some?
    ensures i < |t.fields| && t.fields[i].key == "" && key in FieldKeys(t.fields[i])
    ensures StepTo(t.fields[i].typ, a.values[i], key).Some? != StepTo(t.fields[i].typ, b.values[i], key).Some?
  {
    var fs := t.fields;
    StepFieldFinds(t, if StepTo(t, a, key).Some? then a else b, key, |fs|);
    i :| 0 <= i < |fs| && key in FieldKeys(fs[i]);
    StepIsField(t, a, key, i, |fs|);
    StepIsField(t, b, key, i, |fs|);
  }

  ghost predicate NamedAbove(d: seq<string>, path: string, keys: seq<string>) {
    exists n :: 0 <= n < |keys| && Join(path, keys[..n]) in d
  }

  /**
   For a path that exists on one side only, Any is always false: what is named is a path above
   it, where the other side has a nil pointer.
   */
  lemma {:induction false} AnyMissesOneSided(path: string, t: Type, a: Value, b: Value, keys: seq<string>)
    requires HasType(t, a) && HasType(t, b) && WellKeyed(t) && forall k :: k in keys ==> DotFree(k)
    requires Subtree(t, a, keys).Some? != Subtree(t, b, keys).Some?
    ensures !Hits(Diff(path, t, a, b), Join(path, keys)) && NamedAbove(Diff(path, t, a, b), path, keys)
    decreases |keys|
  {
    var d, p := Diff(path, t, a, b), Join(path, keys);
    var key := keys[0];
    var sub := path + "." + key;
    JoinIsUnder(sub, keys[1..]);
    if StepTo(t, a, key).Some? != StepTo(t, b, key).Some? {
      OneSidedStep(path, t, a, b, key, path);
      assert Join(path, keys[..0]) == path;
      forall x | Under(x, p)
        ensures x !in d
      {
        UnderIsTransitive(x, p, sub);
        OneSidedStep(path, t, a, b, key, x);
      }
    } else {
      var u, v := StepTo(t, a, key).value, StepTo(t, b, key).value;
      PartsNames(path, t, a, b, key, p);
      AnyMissesOneSided(sub, u.typ, u.value, v.value, keys[1..]);
      NamedAbovePart(path, t, a, b, keys);
    }
  }

  lemma NamedAbovePart(path: string, t: Type, a: Value, b: Value, keys: seq<string>)
    requires HasType(t, a) && HasType(t, b) && WellKeyed(t) && keys != [] && DotFree(keys[0])
    requires StepTo(t, a, keys[0]).Some? && StepTo(t, b, keys[0]).Some?
    requires var u, v := StepTo(t, a, keys[0]).value, StepTo(t, b, keys[0]).value;
      u.typ == v.typ && NamedAbove(Diff(path + "." + keys[0], u.typ, u.value, v.value), path + "." + keys[0], keys[1..])
    ensures NamedAbove(Diff(path, t, a, b), path, keys)
  {
    var u, v := StepTo(t, a, keys[0]).value, StepTo(t, b, keys[0]).value;
    var sub := path + "." + keys[0];
    var n :| 0 <= n < |keys[1..]| && Join(sub, keys[1..][..n]) in Diff(sub, u.typ, u.value, v.value);
    assert keys[..n + 1][0] == keys[0] && keys[..n + 1][1..] == keys[1..][..n];
    JoinIsUnder(sub, keys[1..][..n]);
    StepKeepsNames(path, t, a, b, keys[0], Join(sub, keys[1..][..n]));
    assert Join(path, keys[..n + 1]) in Diff(path, t, a, b);
  }

  lemma NamedIsUnder(path: string, t: Type, a: Value, b: Value, x: string)
    requires HasType(t, a) && HasType(t, b) && WellKeyed(t) && x in Diff(path, t, a, b)
    ensures Under(x, path)
  {
    NamedIsBelow(path, t, a, b, x);
    if x != path {
      var k :| k in Keys(t) && Under(x, path + "." + k);
      KeyIsUnder(path, k);
      UnderIsTransitive(x, path + "." + k, path);
    }
  }

  // ---- The whole configuration ----

  // A field of the configuration by its Go name.
  datatype Section = Section(name: string, field: Field)

  /** The paths at which the file keeps the sections that loading flattens. */
  const SECTION_PATHS: map<string, string> := map[
    "Discord" := "core.discord",
    "AI" := "core.ai",
    "Decision" := "core.decision",
    "Embedding" := "memory_pipeline.embedding",
    "Memory" := "memory_pipeline.memory",
    "Qdrant" := "memory_pipeline.qdrant",
    "Blacklist" := "access_control.blacklist",
    "Whitelist" := "access_control.whitelist",
    "MessageFilters" := "access_control.message_filters",
    "Web" := "operations.web",
    "Logging" := "operations.logging",
    "Plugins" := "operations.plugins",
    "MCP" := "operations.mcp",
    "Operations" := "operations.runtime"]

  function SectionPath(s: Section): string {
    if s.name in SECTION_PATHS then SECTION_PATHS[s.name] else s.field.key
  }

  predicate IsConfig(sections: seq<Section>, v: seq<Value>) {
    |v| == |sections| && forall i :: 0 <= i < |v| ==> HasType(sections[i].field.typ, v[i])
  }

  function DiffSection(sections: seq<Section>, a: seq<Value>, b: seq<Value>, i: nat): seq<string>
    requires IsConfig(sections, a) && IsConfig(sections, b) && i < |sections|
  {
    if sections[i].field.exported then Diff(SectionPath(sections[i]), sections[i].field.typ, a[i], b[i]) else []
  }

  function DiffSections(sections: seq<Section>, a: seq<Value>, b: seq<Value>, n: nat): seq<string>
    requires IsConfig(sections, a) && IsConfig(sections, b) && n <= |sections|
  {
    if n == 0 then [] else DiffSections(sections, a, b, n - 1) + DiffSection(sections, a, b, n - 1)
  }

  /** The paths of what differs, in order. */
  function Changes(sections: seq<Section>, a: seq<Value>, b: seq<Value>): seq<string>
    requires IsConfig(sections, a) && IsConfig(sections, b)
  {
    Sorted(DiffSections(sections, a, b, |sections|))
  }

  /** Diff; None is a nil configuration. */
  method DiffConfig(sections: seq<Section>, was: Option<seq<Value>>, next: Option<seq<Value>>)
    returns (out: seq<string>)
    requires (was.Some? ==> IsConfig(sections, was.value)) && (next.Some? ==> IsConfig(sections, next.value))
    ensures out == match (was, next) {
        case (Some(a), Some(b)) => Changes(sections, a, b)
        case (None, None) => []
        case _ => ["*"]
      }
  {
    if was.None? || next.None? {
      return if was == next then [] else ["*"];
    }
    out := [];
    for i := 0 to |sections|
      invariant out == DiffSections(sections, was.value, next.value, i)
    {
      if !sections[i].field.exported {
        continue;
      }
      out := DiffValue(SectionPath(sections[i]), sections[i].field.typ, was.value[i], next.value[i], out);
    }
    out := Sorted(out);
  }

  lemma ChangesMembers(sections: seq<Section>, a: seq<Value>, b: seq<Value>)
    requires IsConfig(sections, a) && IsConfig(sections, b)
    ensures var d, changes := DiffSections(sections, a, b, |sections|), Changes(sections, a, b);
      Ascending(changes) && multiset(changes) == multiset(d) && forall x :: x in changes <==> x in d
  {
    var d := DiffSections(sections, a, b, |sections|);
    SortedIsAscending(d);
    SortedIsRearranged(d);
    forall x
      ensures x in Sorted(d) <==> x in d
    {
      SortedMembers(d, x);
    }
  }

  ghost predicate SectionsWellKeyed(sections: seq<Section>) {
    forall i :: 0 <= i < |sections| ==> WellKeyed(sections[i].field.typ)
  }

  predicate SectionHas(sections: seq<Section>, a: seq<Value>, b: seq<Value>, i: nat, x: string)
    requires IsConfig(sections, a) && IsConfig(sections, b)
  {
    i < |sections| && x in DiffSection(sections, a, b, i)
  }

  lemma {:induction false} SectionsMembers(sections: seq<Section>, a: seq<Value>, b: seq<Value>, n: nat, x: string)
    requires IsConfig(sections, a) && IsConfig(sections, b) && n <= |sections|
    ensures x in DiffSections(sections, a, b, n) <==> exists i :: 0 <= i < n && SectionHas(sections, a, b, i, x)
  {
    if n > 0 {
      SectionsMembers(sections, a, b, n - 1, x);
      assert x in DiffSections(sections, a, b, n) <==>
        x in DiffSections(sections, a, b, n - 1) || SectionHas(sections, a, b, n - 1, x);
    }
  }

  predicate EqualSection(sections: seq<Section>, a: seq<Value>, b: seq<Value>, i: nat)
    requires IsConfig(sections, a) && IsConfig(sections, b) && i < |sections|
  {
    sections[i].field.exported ==> EqualValues(sections[i].field.typ, a[i], b[i])
  }

  lemma SectionEmptyIffEqual(sections: seq<Section>, a: seq<Value>, b: seq<Value>, i: nat)
    requires IsConfig(sections, a) && IsConfig(sections, b) && i < |sections|
    ensures DiffSection(sections, a, b, i) == [] <==> EqualSection(sections, a, b, i)
  {
    NothingNamedIffEqual(SectionPath(sections[i]), sections[i].field.typ, a[i], b[i]);
  }

  /** Nothing changed exactly when all sections are Equal. */
  lemma NoSectionNamedIffEqual(sections: seq<Section>, a: seq<Value>, b: seq<Value>)
    requires IsConfig(sections, a) && IsConfig(sections, b)
    ensures Changes(sections, a, b) == []
       <==> forall i :: 0 <= i < |sections| ==> EqualSection(sections, a, b, i)
  {
    var d := DiffSections(sections, a, b, |sections|);
    ChangesMembers(sections, a, b);
    if d != [] {
      SectionsMembers(sections, a, b, |sections|, d[0]);
      var i :| 0 <= i < |sections| && SectionHas(sections, a, b, i, d[0]);
      SectionEmptyIffEqual(sections, a, b, i);
    } else {
      forall i | 0 <= i < |sections|
        ensures EqualSection(sections, a, b, i)
      {
        SectionEmptyIffEqual(sections, a, b, i);
        if !EqualSection(sections, a, b, i) {
          var x := DiffSection(sections, a, b, i)[0];
          SectionsMembers(sections, a, b, |sections|, x);
          assert SectionHas(sections, a, b, i, x);
        }
      }
    }
  }

  lemma Comparable(x: string, p: string, q: string)
    requires Under(x, p) && Under(x, q)
    ensures Under(p, q) || Under(q, p)
  {
    assert p == x[..|p|] && q == x[..|q|];
    if |p| < |q| {
      assert p + "." == x[..|p| + 1] && p + "." <= q;
    } else if |q| < |p| {
      assert q + "." == x[..|q| + 1] && q + "." <= p;
    }
  }

  /**
   For a prefix that lies below no section ("core", "operations.mcp"), Any is false exactly
   when all sections at or below it are Equal.
   */
  lemma AnyIffSectionsDiffer(sections: seq<Section>, a: seq<Value>, b: seq<Value>, pre: string)
    requires IsConfig(sections, a) && IsConfig(sections, b) && SectionsWellKeyed(sections)
    requires forall i :: 0 <= i < |sections| && Under(pre, SectionPath(sections[i])) ==> pre == SectionPath(sections[i])
    ensures !Hits(Changes(sections, a, b), pre)
       <==> forall i :: 0 <= i < |sections| && Under(SectionPath(sections[i]), pre) ==> EqualSection(sections, a, b, i)
  {
    var d := DiffSections(sections, a, b, |sections|);
    ChangesMembers(sections, a, b);
    if p :| p in d && Under(p, pre) {
      SectionsMembers(sections, a, b, |sections|, p);
      var i :| 0 <= i < |sections| && SectionHas(sections, a, b, i, p);
      var q := SectionPath(sections[i]);
      NamedIsUnder(q, sections[i].field.typ, a[i], b[i], p);
      Comparable(p, q, pre);
      NothingNamedIffEqual(q, sections[i].field.typ, a[i], b[i]);
      assert Under(q, pre) && !EqualSection(sections, a, b, i);
    }
    if i :| 0 <= i < |sections| && Under(SectionPath(sections[i]), pre) && !EqualSection(sections, a, b, i) {
      var q := SectionPath(sections[i]);
      NothingNamedIffEqual(q, sections[i].field.typ, a[i], b[i]);
      var x := DiffSection(sections, a, b, i)[0];
      NamedIsUnder(q, sections[i].field.typ, a[i], b[i], x);
      UnderIsTransitive(x, q, pre);
      SectionsMembers(sections, a, b, |sections|, x);
      assert SectionHas(sections, a, b, i, x) && x in d;
    }
  }

  ghost predicate AlonePath(sections: seq<Section>, i: nat)
    requires i < |sections|
  {
    forall j :: 0 <= j < |sections| && j != i ==>
      !Under(SectionPath(sections[i]), SectionPath(sections[j])) &&
        !Under(SectionPath(sections[j]), SectionPath(sections[i]))
  }

  // At or below a path within a section, what is named is named in that section.
  lemma WithinSection(sections: seq<Section>, a: seq<Value>, b: seq<Value>, i: nat, x: string)
    requires IsConfig(sections, a) && IsConfig(sections, b) && SectionsWellKeyed(sections)
    requires i < |sections| && AlonePath(sections, i) && Under(x, SectionPath(sections[i]))
    ensures x in Changes(sections, a, b) <==> x in DiffSection(sections, a, b, i)
  {
    var q := SectionPath(sections[i]);
    ChangesMembers(sections, a, b);
    SectionsMembers(sections, a, b, |sections|, x);
    forall j | 0 <= j < |sections| && j != i
      ensures !SectionHas(sections, a, b, j, x)
    {
      if SectionHas(sections, a, b, j, x) {
        NamedIsUnder(SectionPath(sections[j]), sections[j].field.typ, a[j], b[j], x);
        Comparable(x, q, SectionPath(sections[j]));
      }
    }
    assert SectionHas(sections, a, b, i, x) <==> x in DiffSection(sections, a, b, i);
  }

  lemma HitsWithinSection(sections: seq<Section>, a: seq<Value>, b: seq<Value>, i: nat, keys: seq<string>)
    requires IsConfig(sections, a) && IsConfig(sections, b) && SectionsWellKeyed(sections)
    requires i < |sections| && AlonePath(sections, i)
    ensures var pre := Join(SectionPath(sections[i]), keys);
      Hits(Changes(sections, a, b), pre) <==> Hits(DiffSection(sections, a, b, i), pre)
  {
    var q := SectionPath(sections[i]);
    JoinIsUnder(q, keys);
    forall x | Under(x, Join(q, keys))
      ensures x in Changes(sections, a, b) <==> x in DiffSection(sections, a, b, i)
    {
      UnderIsTransitive(x, Join(q, keys), q);
      WithinSection(sections, a, b, i, x);
    }
  }

  /** For a path within a section, Any is false exactly when the subtrees there are Equal. */
  lemma AnyWithinSection(sections: seq<Section>, a: seq<Value>, b: seq<Value>, i: nat, keys: seq<string>)
    requires IsConfig(sections, a) && IsConfig(sections, b) && SectionsWellKeyed(sections)
    requires i < |sections| && sections[i].field.exported && AlonePath(sections, i)
    requires forall k :: k in keys ==> DotFree(k)
    requires Subtree(sections[i].field.typ, a[i], keys).Some? && Subtree(sections[i].field.typ, b[i], keys).Some?
    ensures var t := sections[i].field.typ;
      var u, v := Subtree(t, a[i], keys).value, Subtree(t, b[i], keys).value;
      u.typ == v.typ && (!Hits(Changes(sections, a, b), Join(SectionPath(sections[i]), keys))
        <==> EqualValues(u.typ, u.value, v.value))
  {
    AnyIffSubtreesDiffer(SectionPath(sections[i]), sections[i].field.typ, a[i], b[i], keys);
    HitsWithinSection(sections, a, b, i, keys);
  }

  /** For one that exists on one side only Any is false, and a path above it is in the list. */
  lemma AnyMissesOneSidedWithinSection(sections: seq<Section>, a: seq<Value>, b: seq<Value>, i: nat, keys: seq<string>)
    requires IsConfig(sections, a) && IsConfig(sections, b) && SectionsWellKeyed(sections)
    requires i < |sections| && sections[i].field.exported && AlonePath(sections, i)
    requires forall k :: k in keys ==> DotFree(k)
    requires Subtree(sections[i].field.typ, a[i], keys).Some? != Subtree(sections[i].field.typ, b[i], keys).Some?
    ensures !Hits(Changes(sections, a, b), Join(SectionPath(sections[i]), keys))
    ensures NamedAbove(Changes(sections, a, b), SectionPath(sections[i]), keys)
  {
    var q := SectionPath(sections[i]);
    AnyMissesOneSided(q, sections[i].field.typ, a[i], b[i], keys);
    HitsWithinSection(sections, a, b, i, keys);
    var n :| 0 <= n < |keys| && Join(q, keys[..n]) in DiffSection(sections, a, b, i);
    JoinIsUnder(q, keys[..n]);
    WithinSection(sections, a, b, i, Join(q, keys[..n]));
  }

  /** A section that is an empty map in one configuration and a nil one in the other: no change. */
  lemma EmptyMapIsNil(sections: seq<Section>, a: seq<Value>, i: nat)
    requires IsConfig(sections, a) && i < |sections| && sections[i].field.typ.MapOf? && a[i] == Map(true, map[])
    ensures var b := a[i := Map(false, map[])];
      b != a && IsConfig(sections, b) && Changes(sections, a, b) == []
  {
    var b := a[i := Map(false, map[])];
    assert b[i] != a[i];
    forall j | 0 <= j < |sections|
      ensures EqualSection(sections, a, b, j)
    {
      if j != i {
        EqualIsSameNorm(sections[j].field.typ, a[j], b[j]);
      }
    }
    NoSectionNamedIffEqual(sections, a, b);
  }

  lemma SameStart(p: string, q: string, i: nat)
    requires Under(p, q) && i < |q|
    ensures i < |p| && p[i] == q[i]
  {
  }

  lemma CorePathsAreApart(m: string, n: string)
    requires m in SECTION_PATHS && n in SECTION_PATHS && Under(SECTION_PATHS[m], SECTION_PATHS[n])
    requires SECTION_PATHS[n][0] == 'c'
    ensures m == n
  {
    SameStart(SECTION_PATHS[m], SECTION_PATHS[n], 0);
    SameStart(SECTION_PATHS[m], SECTION_PATHS[n], 5);
    SameStart(SECTION_PATHS[m], SECTION_PATHS[n], 6);
  }

  lemma OtherPathsAreApart(m: string, n: string)
    requires m in SECTION_PATHS && n in SECTION_PATHS && Under(SECTION_PATHS[m], SECTION_PATHS[n])
    requires SECTION_PATHS[n][0] != 'c'
    ensures m == n
  {
    var p, q := SECTION_PATHS[m], SECTION_PATHS[n];
    SameStart(p, q, 0);
    SameStart(p, q, 11);
    if |q| > 15 {
      SameStart(p, q, 15);
    }
    if |q| > 16 {
      SameStart(p, q, 16);
    }
  }

  /** The table's paths are not below one another. */
  lemma SectionPathsAreApart(m: string, n: string)
    requires m in SECTION_PATHS && n in SECTION_PATHS && Under(SECTION_PATHS[m], SECTION_PATHS[n])
    ensures m == n
  {
    if SECTION_PATHS[n][0] == 'c' {
      CorePathsAreApart(m, n);
    } else {
      OtherPathsAreApart(m, n);
    }
  }
}
