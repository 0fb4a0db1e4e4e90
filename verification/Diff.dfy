/** Structural diff of two JSON values: what the list of changes means. */
module Diff {
  import opened Wrappers
  import opened Texts

  /** A JSON value; Native stands for a function a value inherits from its prototype. */
  datatype Json =
    | Null
    | Bool(b: bool)
    | Number(n: real)
    | Text(s: string)
    | Array(items: seq<Json>)
    | Object(fields: map<string, Json>)
    | Native(name: string)

  datatype Step = Key(key: string) | Index(i: nat)

  type Path = seq<Step>

  datatype Change = Added(newValue: Json) | Removed(oldValue: Json) | Modified(was: Json, becomes: Json)

  datatype Entry = Entry(path: Path, change: Change)

  /** The names found by `key in value` although the value has no such field of its own. */
  datatype Names = Names(onObjects: set<string>, onArrays: set<string>)

  /** The order in which the keys met at a path are visited. */
  type Order = (Path, set<string>) -> seq<string>

  ghost predicate Enumerates(ks: seq<string>, s: set<string>) {
    && (forall k :: k in ks <==> k in s)
    && (forall i, j :: 0 <= i < j < |ks| ==> ks[i] != ks[j])
  }

  ghost predicate Lists(order: Order) {
    forall p, s :: Enumerates(order(p, s), s)
  }

  /** Values as a JSON parser yields them. */
  ghost predicate IsJson(v: Json) {
    match v
    case Native(_) => false
    case Array(items) => forall i :: 0 <= i < |items| ==> IsJson(items[i])
    case Object(fields) => forall k :: k in fields ==> IsJson(fields[k])
    case _ => true
  }

  // --------------------------------------------------- fields, as seen by `in`

  function IndexFields(items: seq<Json>): map<string, Json> {
    if items == [] then map[]
    else
      var last := |items| - 1;
      IndexFields(items[..last])[Decimal(last) := items[last]]
  }

  predicate Structured(v: Json) {
    v.Array? || v.Object?
  }

  /** An array seen as an object has its indices as keys. */
  function Fields(v: Json): map<string, Json>
    requires Structured(v)
  {
    if v.Object? then v.fields else IndexFields(v.items)
  }

  lemma {:induction false} IndexFieldIsItem(items: seq<Json>, k: string)
    requires k in IndexFields(items)
    ensures IndexFields(items)[k] in items
  {
    var last := |items| - 1;
    if k != Decimal(last) { IndexFieldIsItem(items[..last], k); }
  }

  lemma FieldIsSmaller(v: Json, k: string)
    requires Structured(v) && k in Fields(v)
    ensures v decreases to Fields(v)[k]
  {
    if v.Array? {
      IndexFieldIsItem(v.items, k);
      var i :| 0 <= i < |v.items| && v.items[i] == Fields(v)[k];
    }
  }

  predicate Inherits(names: Names, v: Json, k: string)
    requires Structured(v)
  {
    k !in Fields(v) && if v.Array? then k == "length" || k in names.onArrays else k in names.onObjects
  }

  function Inherited(v: Json, k: string): Json
    requires Structured(v)
  {
    if v.Array? && k == "length" then Number(|v.items| as real) else Native(k)
  }

  // --------------------------------------------------------------- the diff

  datatype Kind = ObjectKind | BooleanKind | NumberKind | StringKind | FunctionKind

  /** JavaScript's typeof: null and arrays are objects. */
  function TypeOf(v: Json): Kind {
    match v
    case Null => ObjectKind
    case Array(_) => ObjectKind
    case Object(_) => ObjectKind
    case Bool(_) => BooleanKind
    case Number(_) => NumberKind
    case Text(_) => StringKind
    case Native(_) => FunctionKind
  }

  function Under(step: Step, ds: seq<Entry>): (r: seq<Entry>)
    ensures |r| == |ds| && forall i :: 0 <= i < |ds| ==> r[i] == Entry([step] + ds[i].path, ds[i].change)
  {
    seq(|ds|, i requires 0 <= i < |ds| => Entry([step] + ds[i].path, ds[i].change))
  }

  function Leaf(before: Json, after: Json): seq<Entry> {
    if before == after then [] else [Entry([], Modified(before, after))]
  }

  /** The changes from one value to another, with paths relative to `path`. */
  function Deep(names: Names, order: Order, path: Path, before: Json, after: Json): seq<Entry>
    decreases before, 2
  {
    if TypeOf(before) != TypeOf(after) then [Entry([], Modified(before, after))]
    else if !Structured(before) || !Structured(after) then Leaf(before, after)
    else if before.Array? && after.Array? then
      Items(names, order, path, before, after, Max(|before.items|, |after.items|))
    else
      Keys(names, order, path, before, after, order(path, Fields(before).Keys + Fields(after).Keys))
  }

  function Max(a: nat, b: nat): nat { if a < b then b else a }

  function Items(names: Names, order: Order, path: Path, before: Json, after: Json, n: nat): seq<Entry>
    requires before.Array? && after.Array?
    decreases before, 1, n
  {
    if n == 0 then []
    else
      Items(names, order, path, before, after, n - 1)
      + Under(Index(n - 1), Item(names, order, path, before, after, n - 1))
  }

  function Item(names: Names, order: Order, path: Path, before: Json, after: Json, i: nat): seq<Entry>
    requires before.Array? && after.Array?
    decreases before, 0
  {
    if i >= |before.items| then
      if i < |after.items| then [Entry([], Added(after.items[i]))] else []
    else if i >= |after.items| then [Entry([], Removed(before.items[i]))]
    else Deep(names, order, path + [Index(i)], before.items[i], after.items[i])
  }

  function Keys(names: Names, order: Order, path: Path, before: Json, after: Json, ks: seq<string>): seq<Entry>
    requires Structured(before) && Structured(after)
    decreases before, 1, |ks|
  {
    if ks == [] then []
    else
      var last := ks[|ks| - 1];
      Keys(names, order, path, before, after, ks[..|ks| - 1])
      + Under(Key(last), Field(names, order, path, before, after, last))
  }

  function Field(names: Names, order: Order, path: Path, before: Json, after: Json, k: string): seq<Entry>
    requires Structured(before) && Structured(after)
    decreases before, 0
  {
    if k in Fields(before) && k in Fields(after) then
      FieldIsSmaller(before, k);
      Deep(names, order, path + [Key(k)], Fields(before)[k], Fields(after)[k])
    else if k in Fields(after) then
      if Inherits(names, before, k) then Leaf(Inherited(before, k), Fields(after)[k])
      else [Entry([], Added(Fields(after)[k]))]
    else if k in Fields(before) then
      if Inherits(names, after, k) then Leaf(Fields(before)[k], Inherited(after, k))
      else [Entry([], Removed(Fields(before)[k]))]
    else []
  }

  /** generateDiff: null on either side is reported as an addition or a removal of the whole value. */
  function Generate(names: Names, order: Order, before: Json, after: Json): seq<Entry> {
    if !Structured(before) && before == after then []
    else if before.Null? then [Entry([], Added(after))]
    else if after.Null? then [Entry([], Removed(before))]
    else Deep(names, order, [], before, after)
  }

  // ---------------------------------------------------------- the algorithm

  function Rooted(path: Path, ds: seq<Entry>): (r: seq<Entry>)
    ensures |r| == |ds| && forall i :: 0 <= i < |ds| ==> r[i] == Entry(path + ds[i].path, ds[i].change)
  {
    seq(|ds|, i requires 0 <= i < |ds| => Entry(path + ds[i].path, ds[i].change))
  }

  lemma RootedUnder(path: Path, step: Step, ds: seq<Entry>)
    ensures Rooted(path + [step], ds) == Rooted(path, Under(step, ds))
  {
    forall i | 0 <= i < |ds| ensures (path + [step]) + ds[i].path == path + ([step] + ds[i].path) {
    }
  }

  lemma RootedEmpty(ds: seq<Entry>)
    ensures Rooted([], ds) == ds
  {
    forall i | 0 <= i < |ds| ensures Rooted([], ds)[i] == ds[i] {
      assert [] + ds[i].path == ds[i].path;
    }
  }

  lemma RootedOne(path: Path, change: Change)
    ensures Rooted(path, [Entry([], change)]) == [Entry(path, change)]
  {
    assert path + [] == path;
  }

  lemma RootedAppend(path: Path, a: seq<Entry>, b: seq<Entry>)
    ensures Rooted(path, a + b) == Rooted(path, a) + Rooted(path, b)
  {
  }

  method GenerateDiff(names: Names, order: Order, oldValue: Json, newValue: Json) returns (diffs: seq<Entry>)
    ensures diffs == Generate(names, order, oldValue, newValue)
  {
    if !Structured(oldValue) && oldValue == newValue { return []; }
    if oldValue.Null? { return [Entry([], Added(newValue))]; }
    if newValue.Null? { return [Entry([], Removed(oldValue))]; }
    diffs := DeepDiff(names, order, oldValue, newValue, []);
    RootedEmpty(Deep(names, order, [], oldValue, newValue));
  }

  method DeepDiff(names: Names, order: Order, oldValue: Json, newValue: Json, path: Path)
    returns (diffs: seq<Entry>)
    ensures diffs == Rooted(path, Deep(names, order, path, oldValue, newValue))
    decreases oldValue, 2
  {
    RootedOne(path, Modified(oldValue, newValue));
    if TypeOf(oldValue) != TypeOf(newValue) { return [Entry(path, Modified(oldValue, newValue))]; }
    if !Structured(oldValue) || !Structured(newValue) {
      return if oldValue == newValue then [] else [Entry(path, Modified(oldValue, newValue))];
    }
    if oldValue.Array? && newValue.Array? {
      diffs := DiffArrays(names, order, oldValue, newValue, path);
    } else {
      diffs := DiffObjects(names, order, oldValue, newValue, path);
    }
  }

  method DiffArrays(names: Names, order: Order, oldArray: Json, newArray: Json, path: Path)
    returns (diffs: seq<Entry>)
    requires oldArray.Array? && newArray.Array?
    ensures diffs == Rooted(path, Deep(names, order, path, oldArray, newArray))
    decreases oldArray, 1
  {
    diffs := [];
    for i := 0 to Max(|oldArray.items|, |newArray.items|)
      invariant diffs == Rooted(path, Items(names, order, path, oldArray, newArray, i))
    {
      var childPath := path + [Index(i)];
      var child: seq<Entry>;
      if i >= |oldArray.items| {
        RootedOne(childPath, Added(newArray.items[i]));
        child := [Entry(childPath, Added(newArray.items[i]))];
      } else if i >= |newArray.items| {
        RootedOne(childPath, Removed(oldArray.items[i]));
        child := [Entry(childPath, Removed(oldArray.items[i]))];
      } else {
        child := DeepDiff(names, order, oldArray.items[i], newArray.items[i], childPath);
      }
      ghost var item := Item(names, order, path, oldArray, newArray, i);
      RootedUnder(path, Index(i), item);
      RootedAppend(path, Items(names, order, path, oldArray, newArray, i), Under(Index(i), item));
      diffs := diffs + child;
    }
  }

  method DiffObjects(names: Names, order: Order, oldObj: Json, newObj: Json, path: Path)
    returns (diffs: seq<Entry>)
    requires Structured(oldObj) && Structured(newObj)
    ensures var ks := order(path, Fields(oldObj).Keys + Fields(newObj).Keys);
      diffs == Rooted(path, Keys(names, order, path, oldObj, newObj, ks))
    decreases oldObj, 1
  {
    diffs := [];
    var oldFields, newFields := Fields(oldObj), Fields(newObj);
    var keys := order(path, oldFields.Keys + newFields.Keys);
    assert keys[..|keys|] == keys;
    for i := 0 to |keys|
      invariant diffs == Rooted(path, Keys(names, order, path, oldObj, newObj, keys[..i]))
    {
      var key := keys[i];
      assert keys[..i + 1][..i] == keys[..i];
      var child := DiffField(names, order, oldObj, newObj, path, key);
      RootedAppend(path, Keys(names, order, path, oldObj, newObj, keys[..i]),
                   Under(Key(key), Field(names, order, path, oldObj, newObj, key)));
      diffs := diffs + child;
    }
  }

  method DiffField(names: Names, order: Order, oldObj: Json, newObj: Json, path: Path, key: string)
    returns (child: seq<Entry>)
    requires Structured(oldObj) && Structured(newObj)
    ensures child == Rooted(path, Under(Key(key), Field(names, order, path, oldObj, newObj, key)))
    decreases oldObj, 0
  {
    var childPath := path + [Key(key)];
    RootedUnder(path, Key(key), Field(names, order, path, oldObj, newObj, key));
    var oldFields, newFields := Fields(oldObj), Fields(newObj);
    if key in oldFields && key in newFields {
      FieldIsSmaller(oldObj, key);
      child := DeepDiff(names, order, oldFields[key], newFields[key], childPath);
    } else if key in newFields {
      RootedOne(childPath, Added(newFields[key]));
      RootedOne(childPath, Modified(Inherited(oldObj, key), newFields[key]));
      if !Inherits(names, oldObj, key) { return [Entry(childPath, Added(newFields[key]))]; }
      var was := Inherited(oldObj, key);
      child := if was == newFields[key] then [] else [Entry(childPath, Modified(was, newFields[key]))];
    } else if key in oldFields {
      RootedOne(childPath, Removed(oldFields[key]));
      RootedOne(childPath, Modified(oldFields[key], Inherited(newObj, key)));
      if !Inherits(names, newObj, key) { return [Entry(childPath, Removed(oldFields[key]))]; }
      var becomes := Inherited(newObj, key);
      child := if oldFields[key] == becomes then [] else [Entry(childPath, Modified(oldFields[key], becomes))];
    } else {
      child := [];
    }
  }

  // -------------------------------------------------------- applying a diff

  function Value(change: Change): Json {
    match change
    case Added(x) => x
    case Removed(_) => Null
    case Modified(_, x) => x
  }

  /**
   One change put into effect. Removing an array item cuts the array there; a
   path that leads nowhere changes nothing.
   */
  function Put(v: Json, path: Path, change: Change): Json
    decreases |path|
  {
    if path == [] then Value(change)
    else
      match path[0]
      case Key(k) =>
        if !v.Object? then v
        else if |path| == 1 && change.Removed? then Object(v.fields - {k})
        else if k in v.fields then Object(v.fields[k := Put(v.fields[k], path[1..], change)])
        else if |path| == 1 then Object(v.fields[k := Value(change)])
        else v
      case Index(i) =>
        if !v.Array? || i > |v.items| then v
        else if |path| == 1 && change.Removed? then Array(v.items[..i])
        else if i < |v.items| then Array(v.items[i := Put(v.items[i], path[1..], change)])
        else if |path| == 1 then Array(v.items + [Value(change)])
        else v
  }

  /** A list of changes, applied in order. */
  function Patch(v: Json, ds: seq<Entry>): Json {
    if ds == [] then v
    else
      var last := ds[|ds| - 1];
      Put(Patch(v, ds[..|ds| - 1]), last.path, last.change)
  }

  lemma {:induction false} PatchAppend(v: Json, a: seq<Entry>, b: seq<Entry>)
    ensures Patch(v, a + b) == Patch(Patch(v, a), b)
  {
    if b == [] {
      assert a + b == a;
    } else {
      var init := b[..|b| - 1];
      assert (a + b)[..|a + b| - 1] == a + init;
      PatchAppend(v, a, init);
    }
  }

  /** A root that is replaced, not removed, or never touched. */
  predicate KeepsRoot(ds: seq<Entry>) {
    forall d :: d in ds ==> d.path == [] ==> d.change.Modified?
  }

  lemma {:induction false} PatchKey(fields: map<string, Json>, k: string, ds: seq<Entry>)
    requires k in fields && KeepsRoot(ds)
    ensures Patch(Object(fields), Under(Key(k), ds)) == Object(fields[k := Patch(fields[k], ds)])
  {
    var v := Object(fields);
    if ds == [] {
      assert fields[k := fields[k]] == fields;
    } else {
      var init, last := ds[..|ds| - 1], ds[|ds| - 1];
      assert Under(Key(k), ds)[..|ds| - 1] == Under(Key(k), init);
      PatchKey(fields, k, init);
      assert last in ds;
      var path := [Key(k)] + last.path;
      assert path[1..] == last.path;
    }
  }

  lemma {:induction false} PatchItem(items: seq<Json>, i: nat, ds: seq<Entry>)
    requires i < |items| && KeepsRoot(ds)
    ensures Patch(Array(items), Under(Index(i), ds)) == Array(items[i := Patch(items[i], ds)])
  {
    if ds == [] {
      assert items[i := items[i]] == items;
    } else {
      var init, last := ds[..|ds| - 1], ds[|ds| - 1];
      assert Under(Index(i), ds)[..|ds| - 1] == Under(Index(i), init);
      PatchItem(items, i, init);
      assert last in ds;
      var path := [Index(i)] + last.path;
      assert path[1..] == last.path;
    }
  }

  lemma PatchOne(v: Json, d: Entry)
    ensures Patch(v, [d]) == Put(v, d.path, d.change)
  {
    assert [d][..0] == [];
  }

  lemma UnderOne(step: Step, change: Change)
    ensures Under(step, [Entry([], change)]) == [Entry([step], change)]
  {
    assert [step] + [] == [step];
  }

  predicate Inner(ds: seq<Entry>) {
    forall d :: d in ds ==> d.path != []
  }

  lemma {:induction false} ItemsAreInner(names: Names, order: Order, path: Path, before: Json, after: Json, n: nat)
    requires before.Array? && after.Array?
    ensures Inner(Items(names, order, path, before, after, n))
  {
    if n > 0 { ItemsAreInner(names, order, path, before, after, n - 1); }
  }

  lemma {:induction false} KeysAreInner(
    names: Names, order: Order, path: Path, before: Json, after: Json, ks: seq<string>)
    requires Structured(before) && Structured(after)
    ensures Inner(Keys(names, order, path, before, after, ks))
  {
    if ks != [] { KeysAreInner(names, order, path, before, after, ks[..|ks| - 1]); }
  }

  lemma DeepKeepsRoot(names: Names, order: Order, path: Path, before: Json, after: Json)
    ensures KeepsRoot(Deep(names, order, path, before, after))
  {
    if TypeOf(before) == TypeOf(after) && Structured(before) && Structured(after) {
      if before.Array? && after.Array? {
        ItemsAreInner(names, order, path, before, after, Max(|before.items|, |after.items|));
      } else {
        KeysAreInner(names, order, path, before, after, order(path, Fields(before).Keys + Fields(after).Keys));
      }
    }
  }

  lemma {:induction false} InnerKeepsKind(v: Json, ds: seq<Entry>)
    requires Structured(v) && Inner(ds)
    ensures Structured(Patch(v, ds)) && Patch(v, ds).Array? == v.Array?
  {
    if ds != [] {
      assert ds[|ds| - 1] in ds;
      InnerKeepsKind(v, ds[..|ds| - 1]);
    }
  }

  // ------------------------------------------------------- objects, rebuilt

  function At(m: map<string, Json>, k: string): Option<Json> {
    if k in m then Some(m[k]) else None
  }

  function With(m: map<string, Json>, k: string, v: Option<Json>): map<string, Json> {
    if v.Some? then m[k := v.value] else m - {k}
  }

  /** What the diff of one field makes of it. */
  function Outcome(names: Names, order: Order, path: Path, before: Json, after: Json, k: string): Option<Json>
    requires before.Object? && after.Object?
  {
    if k in before.fields && k in after.fields then
      Some(Patch(before.fields[k], Deep(names, order, path + [Key(k)], before.fields[k], after.fields[k])))
    else if k in after.fields then Some(after.fields[k])
    else if k in before.fields && k in names.onObjects then Some(Native(k))
    else None
  }

  lemma FieldApplied(
    names: Names, order: Order, path: Path, before: Json, after: Json, k: string, cur: map<string, Json>)
    requires before.Object? && after.Object? && IsJson(before) && IsJson(after)
    requires At(cur, k) == At(before.fields, k)
    ensures Patch(Object(cur), Under(Key(k), Field(names, order, path, before, after, k)))
         == Object(With(cur, k, Outcome(names, order, path, before, after, k)))
  {
    var ds := Field(names, order, path, before, after, k);
    if k in before.fields && k in after.fields {
      DeepKeepsRoot(names, order, path + [Key(k)], before.fields[k], after.fields[k]);
      PatchKey(cur, k, ds);
    } else if k in after.fields || k in before.fields {
      assert k in after.fields ==> IsJson(after.fields[k]);
      assert k in before.fields ==> IsJson(before.fields[k]);
      assert |ds| == 1 && ds[0].path == [];
      var d := Entry([Key(k)], ds[0].change);
      UnderOne(Key(k), ds[0].change);
      assert ds == [Entry([], ds[0].change)];
      PatchOne(Object(cur), d);
    } else {
      assert cur - {k} == cur;
    }
  }

  lemma {:induction false} KeysApplied(
    names: Names, order: Order, path: Path, before: Json, after: Json, ks: seq<string>)
    requires before.Object? && after.Object? && IsJson(before) && IsJson(after)
    requires forall i, j :: 0 <= i < j < |ks| ==> ks[i] != ks[j]
    ensures var r := Patch(before, Keys(names, order, path, before, after, ks));
      r.Object? && forall k ::
        At(r.fields, k) == if k in ks then Outcome(names, order, path, before, after, k) else At(before.fields, k)
  {
    if ks != [] {
      var init, last := ks[..|ks| - 1], ks[|ks| - 1];
      assert ks == init + [last] && last !in init;
      KeysApplied(names, order, path, before, after, init);
      var cur := Patch(before, Keys(names, order, path, before, after, init)).fields;
      FieldApplied(names, order, path, before, after, last, cur);
      PatchAppend(before, Keys(names, order, path, before, after, init),
                  Under(Key(last), Field(names, order, path, before, after, last)));
    }
  }

  // -------------------------------------------------------- arrays, rebuilt

  /** The item at `i` once its part of the diff is applied. */
  function ItemOutcome(names: Names, order: Order, path: Path, before: Json, after: Json, i: nat): Json
    requires before.Array? && after.Array? && i < |after.items|
  {
    if i < |before.items| then
      Patch(before.items[i], Deep(names, order, path + [Index(i)], before.items[i], after.items[i]))
    else after.items[i]
  }

  /** The array once the first `n` positions are done. */
  function ItemsAfter(names: Names, order: Order, path: Path, before: Json, after: Json, n: nat): seq<Json>
    requires before.Array? && after.Array? && n <= Max(|before.items|, |after.items|)
  {
    var size := if n > |after.items| then |after.items| else Max(n, |before.items|);
    seq(size, i requires 0 <= i < size =>
      if i < n then ItemOutcome(names, order, path, before, after, i) else before.items[i])
  }

  lemma ItemApplied(names: Names, order: Order, path: Path, before: Json, after: Json, i: nat, n: nat)
    requires before.Array? && after.Array? && n == i + 1 <= Max(|before.items|, |after.items|)
    ensures Patch(Array(ItemsAfter(names, order, path, before, after, i)),
                  Under(Index(i), Item(names, order, path, before, after, i)))
         == Array(ItemsAfter(names, order, path, before, after, n))
  {
    var cur := ItemsAfter(names, order, path, before, after, i);
    var next := ItemsAfter(names, order, path, before, after, n);
    var ds := Item(names, order, path, before, after, i);
    if i < |before.items| && i < |after.items| {
      DeepKeepsRoot(names, order, path + [Index(i)], before.items[i], after.items[i]);
      PatchItem(cur, i, ds);
      assert cur[i := Patch(cur[i], ds)] == next;
    } else {
      var d := Entry([Index(i)], ds[0].change);
      UnderOne(Index(i), ds[0].change);
      assert ds == [Entry([], ds[0].change)];
      PatchOne(Array(cur), d);
      if i < |after.items| {
        assert cur + [after.items[i]] == next;
      } else if i == |after.items| {
        assert cur[..i] == next;
      } else {
        assert cur == next;
      }
    }
  }

  lemma NoneApplied(names: Names, order: Order, path: Path, before: Json, after: Json)
    requires before.Array? && after.Array?
    ensures ItemsAfter(names, order, path, before, after, 0) == before.items
  {
  }

  lemma PatchThen(v: Json, a: seq<Entry>, b: seq<Entry>, u: Json, w: Json)
    requires Patch(v, a) == u && Patch(u, b) == w
    ensures Patch(v, a + b) == w
  {
    PatchAppend(v, a, b);
  }

  lemma {:induction false} ItemsApplied(names: Names, order: Order, path: Path, before: Json, after: Json, n: nat)
    requires before.Array? && after.Array? && n <= Max(|before.items|, |after.items|)
    ensures Patch(before, Items(names, order, path, before, after, n))
         == Array(ItemsAfter(names, order, path, before, after, n))
    decreases n, 0
  {
    if n == 0 {
      NoneApplied(names, order, path, before, after);
    } else {
      ItemsStep(names, order, path, before, after, n);
    }
  }

  lemma {:induction false} ItemsStep(names: Names, order: Order, path: Path, before: Json, after: Json, n: nat)
    requires before.Array? && after.Array? && 0 < n <= Max(|before.items|, |after.items|)
    ensures Patch(before, Items(names, order, path, before, after, n - 1)
                          + Under(Index(n - 1), Item(names, order, path, before, after, n - 1)))
         == Array(ItemsAfter(names, order, path, before, after, n))
    decreases n - 1, 1
  {
    ItemsApplied(names, order, path, before, after, n - 1);
    ItemApplied(names, order, path, before, after, n - 1, n);
    PatchThen(before, Items(names, order, path, before, after, n - 1),
              Under(Index(n - 1), Item(names, order, path, before, after, n - 1)),
              Array(ItemsAfter(names, order, path, before, after, n - 1)),
              Array(ItemsAfter(names, order, path, before, after, n)));
  }

  // --------------------------------------------------------------- theorems

  /**
   No position holds an array on one side and an object on the other, and no
   object drops a field whose name every object inherits.
   */
  ghost predicate Faithful(names: Names, before: Json, after: Json)
    decreases before
  {
    if !Structured(before) || !Structured(after) then true
    else if before.Array? && after.Array? then
      forall i :: 0 <= i < |before.items| && i < |after.items| ==> Faithful(names, before.items[i], after.items[i])
    else if before.Object? && after.Object? then
      && (forall k :: k in before.fields && k in after.fields ==> Faithful(names, before.fields[k], after.fields[k]))
      && (forall k :: k in before.fields && k !in after.fields ==> k !in names.onObjects)
    else false
  }

  lemma {:induction false} DeepRebuildsExactly(names: Names, order: Order, path: Path, before: Json, after: Json)
    requires IsJson(before) && IsJson(after) && Lists(order)
    ensures Patch(before, Deep(names, order, path, before, after)) == after <==> Faithful(names, before, after)
    decreases before
  {
    if TypeOf(before) != TypeOf(after) || !Structured(before) || !Structured(after) {
      PatchOne(before, Entry([], Modified(before, after)));
    } else if before.Array? && after.Array? {
      ArrayRebuildsExactly(names, order, path, before, after);
    } else if before.Object? && after.Object? {
      ObjectRebuildsExactly(names, order, path, before, after);
    } else {
      var ks := order(path, Fields(before).Keys + Fields(after).Keys);
      KeysAreInner(names, order, path, before, after, ks);
      InnerKeepsKind(before, Keys(names, order, path, before, after, ks));
    }
  }

  lemma {:induction false} ArrayRebuildsExactly(names: Names, order: Order, path: Path, before: Json, after: Json)
    requires IsJson(before) && IsJson(after) && Lists(order) && before.Array? && after.Array?
    ensures Patch(before, Deep(names, order, path, before, after)) == after <==> Faithful(names, before, after)
    decreases before, 0
  {
    var max := Max(|before.items|, |after.items|);
    ItemsApplied(names, order, path, before, after, max);
    AllItems(names, order, path, before, after);
    forall i | 0 <= i < |before.items| && i < |after.items|
      ensures ItemOutcome(names, order, path, before, after, i) == after.items[i]
         <==> Faithful(names, before.items[i], after.items[i])
    {
      DeepRebuildsExactly(names, order, path + [Index(i)], before.items[i], after.items[i]);
    }
  }

  lemma AllItems(names: Names, order: Order, path: Path, before: Json, after: Json)
    requires before.Array? && after.Array?
    ensures ItemsAfter(names, order, path, before, after, Max(|before.items|, |after.items|)) == after.items
       <==> forall i :: 0 <= i < |before.items| && i < |after.items|
              ==> ItemOutcome(names, order, path, before, after, i) == after.items[i]
  {
    var r := ItemsAfter(names, order, path, before, after, Max(|before.items|, |after.items|));
    forall i | 0 <= i < |after.items| ensures r[i] == ItemOutcome(names, order, path, before, after, i) {
    }
  }

  lemma {:induction false} ObjectRebuildsExactly(names: Names, order: Order, path: Path, before: Json, after: Json)
    requires IsJson(before) && IsJson(after) && Lists(order) && before.Object? && after.Object?
    ensures Patch(before, Deep(names, order, path, before, after)) == after <==> Faithful(names, before, after)
    decreases before, 0
  {
    var all := before.fields.Keys + after.fields.Keys;
    var ks := order(path, all);
    assert Enumerates(ks, all);
    KeysApplied(names, order, path, before, after, ks);
    var r := Patch(before, Deep(names, order, path, before, after));
    forall k | k in before.fields && k in after.fields
      ensures At(r.fields, k) == At(after.fields, k) <==> Faithful(names, before.fields[k], after.fields[k])
    {
      assert k in ks;
      DeepRebuildsExactly(names, order, path + [Key(k)], before.fields[k], after.fields[k]);
    }
    forall k | !(k in before.fields && k in after.fields)
      ensures At(r.fields, k) == At(after.fields, k)
         <==> !(k in before.fields && k !in after.fields && k in names.onObjects)
    {
      assert k in ks <==> k in all;
    }
    SameFields(r.fields, after.fields);
  }

  lemma SameFields(a: map<string, Json>, b: map<string, Json>)
    ensures a == b <==> forall k :: At(a, k) == At(b, k)
  {
    if forall k :: At(a, k) == At(b, k) {
      assert forall k :: k in a <==> At(a, k).Some?;
      assert forall k :: k in b <==> At(b, k).Some?;
      forall k | k in a ensures k in b && a[k] == b[k] { assert At(a, k) == At(b, k); }
      forall k | k in b ensures k in a { assert At(a, k) == At(b, k); }
    }
  }

  /** Applying the diff to the old value gives the new one, exactly for faithful pairs. */
  lemma DiffRebuildsExactly(names: Names, order: Order, before: Json, after: Json)
    requires IsJson(before) && IsJson(after) && Lists(order)
    ensures Patch(before, Generate(names, order, before, after)) == after <==> Faithful(names, before, after)
  {
    PatchOne(before, Entry([], Added(after)));
    PatchOne(before, Entry([], Removed(before)));
    DeepRebuildsExactly(names, order, [], before, after);
  }

  lemma {:induction false} KeysOfSame(
    names: Names, order: Order, path: Path, v: Json, ks: seq<string>)
    requires Lists(order) && Structured(v) && forall k :: k in ks ==> k in Fields(v)
    ensures Keys(names, order, path, v, v, ks) == []
    decreases v, 1, |ks|
  {
    if ks != [] {
      var last := ks[|ks| - 1];
      assert last in ks;
      FieldIsSmaller(v, last);
      DeepOfSame(names, order, path + [Key(last)], Fields(v)[last]);
      KeysOfSame(names, order, path, v, ks[..|ks| - 1]);
    }
  }

  lemma {:induction false} ItemsOfSame(names: Names, order: Order, path: Path, v: Json, n: nat)
    requires Lists(order) && v.Array? && n <= |v.items|
    ensures Items(names, order, path, v, v, n) == []
    decreases v, 1, n
  {
    if n > 0 {
      ItemsOfSame(names, order, path, v, n - 1);
      DeepOfSame(names, order, path + [Index(n - 1)], v.items[n - 1]);
    }
  }

  lemma {:induction false} DeepOfSame(names: Names, order: Order, path: Path, v: Json)
    requires Lists(order)
    ensures Deep(names, order, path, v, v) == []
    decreases v, 2
  {
    if v.Array? {
      ItemsOfSame(names, order, path, v, |v.items|);
    } else if v.Object? {
      assert Enumerates(order(path, Fields(v).Keys + Fields(v).Keys), Fields(v).Keys + Fields(v).Keys);
      KeysOfSame(names, order, path, v, order(path, Fields(v).Keys + Fields(v).Keys));
    }
  }

  /** Equal values have no diff; no diff means equal values exactly for faithful pairs. */
  lemma EmptyMeansEqualExactly(names: Names, order: Order, before: Json, after: Json)
    requires IsJson(before) && IsJson(after) && Lists(order)
    ensures before == after ==> Generate(names, order, before, after) == []
    ensures Generate(names, order, before, after) == [] ==> (before == after <==> Faithful(names, before, after))
  {
    if before == after { DeepOfSame(names, order, [], before); }
    DiffRebuildsExactly(names, order, before, after);
  }

  /** An array and an object with the same fields are told apart by nothing in the diff. */
  lemma ArrayForObjectIsInvisible(names: Names, order: Order, x: Json)
    requires Lists(order) && IsJson(x)
    ensures Generate(names, order, Array([x]), Object(map["0" := x])) == []
  {
    var a, o := Array([x]), Object(map["0" := x]);
    assert [x][..0] == [] && Decimal(0) == ['0'];
    assert IndexFields([x][..0]) == map[];
    assert Fields(a) == map["0" := x];
    var ks := order([], Fields(a).Keys + Fields(o).Keys);
    assert Enumerates(ks, Fields(a).Keys + Fields(o).Keys);
    KeysAgree(names, order, [], a, o, ks);
  }

  /** An array seen as an object has its length under that name, which every array inherits. */
  lemma LengthIsInherited(names: Names, order: Order, x: Json)
    requires Lists(order) && IsJson(x) && x != Number(0.0)
    ensures Generate(names, order, Array([]), Object(map["length" := x])) ==
      [Entry([Key("length")], Modified(Number(0.0), x))]
  {
    var a, o := Array([]), Object(map["length" := x]);
    var ks := order([], Fields(a).Keys + Fields(o).Keys);
    assert Enumerates(ks, Fields(a).Keys + Fields(o).Keys);
    assert Fields(a).Keys + Fields(o).Keys == {"length"};
    OnlyKey(ks, "length");
    UnderOne(Key("length"), Modified(Number(0.0), x));
    assert ["length"][..0] == [];
    assert Keys(names, order, [], a, o, []) == [];
  }

  lemma Different<T>(xs: seq<T>)
    requires forall i, j :: 0 <= i < j < |xs| ==> xs[i] != xs[j]
    ensures |xs| < 2 || xs[0] != xs[1]
  {
  }

  lemma Same<T>(xs: seq<T>, x: T)
    requires forall y :: y in xs ==> y == x
    ensures |xs| < 2 || xs[0] == xs[1]
  {
    assert |xs| < 2 || (xs[0] in xs && xs[1] in xs);
  }

  lemma OnlyKey(ks: seq<string>, k: string)
    requires Enumerates(ks, {k})
    ensures ks == [k]
  {
    assert k in ks;
    Different(ks);
    Same(ks, k);
  }

  /** Scalars are JSON, and arrays and objects of JSON. */
  lemma JsonValues(b: bool, n: real, s: string, items: seq<Json>, fields: map<string, Json>)
    ensures IsJson(Null) && IsJson(Bool(b)) && IsJson(Number(n)) && IsJson(Text(s))
    ensures (forall v :: v in items ==> IsJson(v)) ==> IsJson(Array(items))
    ensures (forall k :: k in fields ==> IsJson(fields[k])) ==> IsJson(Object(fields))
  {
  }

  lemma {:induction false} KeysAgree(names: Names, order: Order, path: Path, a: Json, o: Json, ks: seq<string>)
    requires Structured(a) && Structured(o) && Fields(a) == Fields(o) && Lists(order)
    requires forall k :: k in ks ==> k in Fields(a)
    ensures Keys(names, order, path, a, o, ks) == []
  {
    if ks != [] {
      var last := ks[|ks| - 1];
      assert last in ks;
      DeepOfSame(names, order, path + [Key(last)], Fields(a)[last]);
      KeysAgree(names, order, path, a, o, ks[..|ks| - 1]);
    }
  }

  // ------------------------------------------------ what the entries report

  /** What a value has under a step, inherited or its own. */
  function Child(names: Names, v: Json, step: Step): Option<Json> {
    match step
    case Index(i) => if v.Array? && i < |v.items| then Some(v.items[i]) else None
    case Key(k) =>
      if !Structured(v) then None
      else if k in Fields(v) then Some(Fields(v)[k])
      else if Inherits(names, v, k) then Some(Inherited(v, k))
      else None
  }

  /** What a value has at a path. */
  function Lookup(names: Names, v: Json, path: Path): Option<Json>
    decreases |path|
  {
    if path == [] then Some(v)
    else
      match Child(names, v, path[0])
      case None => None
      case Some(child) => Lookup(names, child, path[1..])
  }

  /** The entry says what was there and what is there now, nothing being an absence; and they differ. */
  predicate Reports(names: Names, before: Json, after: Json, d: Entry) {
    match d.change
    case Added(x) => Lookup(names, before, d.path) == None && Lookup(names, after, d.path) == Some(x)
    case Removed(x) => Lookup(names, before, d.path) == Some(x) && Lookup(names, after, d.path) == None
    case Modified(x, y) =>
      Lookup(names, before, d.path) == Some(x) && Lookup(names, after, d.path) == Some(y) && x != y
  }

  ghost predicate AllReport(names: Names, before: Json, after: Json, ds: seq<Entry>) {
    forall d :: d in ds ==> Reports(names, before, after, d)
  }

  lemma ReportsUnder(names: Names, before: Json, after: Json, step: Step, b: Json, a: Json, ds: seq<Entry>)
    requires Child(names, before, step) == Some(b) && Child(names, after, step) == Some(a)
    requires AllReport(names, b, a, ds)
    ensures AllReport(names, before, after, Under(step, ds))
  {
    var up := Under(step, ds);
    forall d | d in up ensures Reports(names, before, after, d) {
      var i :| 0 <= i < |up| && up[i] == d;
      assert ds[i] in ds && d.path == [step] + ds[i].path && d.path[1..] == ds[i].path;
    }
  }

  lemma ReportsHere(names: Names, before: Json, after: Json, step: Step, change: Change)
    requires match change
      case Added(x) => Child(names, before, step) == None && Child(names, after, step) == Some(x)
      case Removed(x) => Child(names, before, step) == Some(x) && Child(names, after, step) == None
      case Modified(x, y) => Child(names, before, step) == Some(x) && Child(names, after, step) == Some(y) && x != y
    ensures AllReport(names, before, after, Under(step, [Entry([], change)]))
  {
    UnderOne(step, change);
    LookupOne(names, before, step);
    LookupOne(names, after, step);
  }

  lemma LookupOne(names: Names, v: Json, step: Step)
    ensures Lookup(names, v, [step]) == Child(names, v, step)
  {
    assert [step][1..] == [];
  }

  lemma {:induction false} DeepReports(names: Names, order: Order, path: Path, before: Json, after: Json)
    requires Lists(order)
    ensures AllReport(names, before, after, Deep(names, order, path, before, after))
    decreases before, 2
  {
    if TypeOf(before) == TypeOf(after) && Structured(before) && Structured(after) {
      if before.Array? && after.Array? {
        ItemsReport(names, order, path, before, after, Max(|before.items|, |after.items|));
      } else {
        KeysReport(names, order, path, before, after, order(path, Fields(before).Keys + Fields(after).Keys));
      }
    }
  }

  lemma {:induction false} ItemsReport(names: Names, order: Order, path: Path, before: Json, after: Json, n: nat)
    requires Lists(order) && before.Array? && after.Array?
    ensures AllReport(names, before, after, Items(names, order, path, before, after, n))
    decreases before, 1, n
  {
    if n > 0 {
      var i := n - 1;
      ItemsReport(names, order, path, before, after, i);
      if i < |before.items| && i < |after.items| {
        DeepReports(names, order, path + [Index(i)], before.items[i], after.items[i]);
        ReportsUnder(names, before, after, Index(i), before.items[i], after.items[i],
                     Item(names, order, path, before, after, i));
      } else if i < |before.items| {
        ReportsHere(names, before, after, Index(i), Removed(before.items[i]));
      } else if i < |after.items| {
        ReportsHere(names, before, after, Index(i), Added(after.items[i]));
      }
    }
  }

  lemma {:induction false} KeysReport(
    names: Names, order: Order, path: Path, before: Json, after: Json, ks: seq<string>)
    requires Lists(order) && Structured(before) && Structured(after)
    ensures AllReport(names, before, after, Keys(names, order, path, before, after, ks))
    decreases before, 1, |ks|
  {
    if ks != [] {
      var last := ks[|ks| - 1];
      KeysReport(names, order, path, before, after, ks[..|ks| - 1]);
      FieldReports(names, order, path, before, after, last);
    }
  }

  lemma {:induction false} FieldReports(names: Names, order: Order, path: Path, before: Json, after: Json, k: string)
    requires Lists(order) && Structured(before) && Structured(after)
    ensures AllReport(names, before, after, Under(Key(k), Field(names, order, path, before, after, k)))
    decreases before, 0
  {
    var b, a := Child(names, before, Key(k)), Child(names, after, Key(k));
    if k in Fields(before) && k in Fields(after) {
      FieldIsSmaller(before, k);
      DeepReports(names, order, path + [Key(k)], Fields(before)[k], Fields(after)[k]);
      ReportsUnder(names, before, after, Key(k), b.value, a.value, Field(names, order, path, before, after, k));
    } else if k in Fields(before) || k in Fields(after) {
      if b.Some? && a.Some? {
        if b != a { ReportsHere(names, before, after, Key(k), Modified(b.value, a.value)); }
      } else if b.Some? {
        ReportsHere(names, before, after, Key(k), Removed(b.value));
      } else {
        ReportsHere(names, before, after, Key(k), Added(a.value));
      }
    }
  }

  /** A value at the top that is null counts as nothing. */
  function AtTop(names: Names, v: Json, path: Path): Option<Json> {
    if path == [] && v.Null? then None else Lookup(names, v, path)
  }

  /**
   Each entry of a diff says what the old document has at its path and what the new
   one has, and they differ: what is added was not there, what is removed is gone.
   */
  lemma EntriesReport(names: Names, order: Order, before: Json, after: Json, d: Entry)
    requires Lists(order) && d in Generate(names, order, before, after)
    ensures match d.change
      case Added(x) => AtTop(names, before, d.path) == None && AtTop(names, after, d.path) == Some(x)
      case Removed(x) => AtTop(names, before, d.path) == Some(x) && AtTop(names, after, d.path) == None
      case Modified(x, y) => AtTop(names, before, d.path) == Some(x) && AtTop(names, after, d.path) == Some(y) && x != y
  {
    DeepReports(names, order, [], before, after);
  }

  // ------------------------------------------------- the paths are disjoint

  ghost predicate Disjoint(ds: seq<Entry>) {
    forall i, j :: 0 <= i < |ds| && 0 <= j < |ds| && i != j ==> !(ds[i].path <= ds[j].path)
  }

  ghost predicate StartsIn(ds: seq<Entry>, steps: set<Step>) {
    forall d :: d in ds ==> d.path != [] && d.path[0] in steps
  }

  lemma PrefixUnder(step: Step, p: Path, q: Path)
    requires !(p <= q)
    ensures !([step] + p <= [step] + q)
  {
    assert ([step] + p)[1..] == p && ([step] + q)[1..] == q;
  }

  lemma UnderIsDisjoint(step: Step, ds: seq<Entry>)
    requires Disjoint(ds)
    ensures Disjoint(Under(step, ds)) && StartsIn(Under(step, ds), {step})
  {
    forall i, j | 0 <= i < |ds| && 0 <= j < |ds| && i != j ensures !([step] + ds[i].path <= [step] + ds[j].path) {
      PrefixUnder(step, ds[i].path, ds[j].path);
    }
  }

  lemma AppendIsDisjoint(a: seq<Entry>, b: seq<Entry>, steps: set<Step>, step: Step)
    requires Disjoint(a) && Disjoint(b) && StartsIn(a, steps) && StartsIn(b, {step}) && step !in steps
    ensures Disjoint(a + b) && StartsIn(a + b, steps + {step})
  {
    forall x, y | x in a && y in b ensures !(x.path <= y.path) && !(y.path <= x.path) {
      assert x.path[0] in steps && y.path[0] in {step};
    }
  }

  lemma {:induction false} KeysAreDisjoint(
    names: Names, order: Order, path: Path, before: Json, after: Json, ks: seq<string>)
    requires Structured(before) && Structured(after) && Lists(order)
    requires forall i, j :: 0 <= i < j < |ks| ==> ks[i] != ks[j]
    ensures Disjoint(Keys(names, order, path, before, after, ks))
    ensures StartsIn(Keys(names, order, path, before, after, ks), set k | k in ks :: Key(k))
    decreases before, 1, |ks|
  {
    if ks != [] {
      var init, last := ks[..|ks| - 1], ks[|ks| - 1];
      assert ks == init + [last] && last !in init;
      KeysAreDisjoint(names, order, path, before, after, init);
      if last in Fields(before) && last in Fields(after) {
        FieldIsSmaller(before, last);
        DeepIsDisjoint(names, order, path + [Key(last)], Fields(before)[last], Fields(after)[last]);
      }
      var ds := Field(names, order, path, before, after, last);
      UnderIsDisjoint(Key(last), ds);
      AppendIsDisjoint(Keys(names, order, path, before, after, init), Under(Key(last), ds),
                       set k | k in init :: Key(k), Key(last));
    }
  }

  lemma {:induction false} ItemsAreDisjoint(names: Names, order: Order, path: Path, before: Json, after: Json, n: nat)
    requires before.Array? && after.Array? && Lists(order)
    ensures Disjoint(Items(names, order, path, before, after, n))
    ensures StartsIn(Items(names, order, path, before, after, n), set i: nat | i < n :: Index(i))
    decreases before, 1, n
  {
    if n > 0 {
      ItemsAreDisjoint(names, order, path, before, after, n - 1);
      if n - 1 < |before.items| && n - 1 < |after.items| {
        DeepIsDisjoint(names, order, path + [Index(n - 1)], before.items[n - 1], after.items[n - 1]);
      }
      var ds := Item(names, order, path, before, after, n - 1);
      UnderIsDisjoint(Index(n - 1), ds);
      AppendIsDisjoint(Items(names, order, path, before, after, n - 1), Under(Index(n - 1), ds),
                       set i: nat | i < n - 1 :: Index(i), Index(n - 1));
    }
  }

  /** No entry's path lies at or below another's, whatever the two values are. */
  lemma {:induction false} DeepIsDisjoint(names: Names, order: Order, path: Path, before: Json, after: Json)
    requires Lists(order)
    ensures Disjoint(Deep(names, order, path, before, after))
    decreases before, 2
  {
    if TypeOf(before) == TypeOf(after) && Structured(before) && Structured(after) {
      if before.Array? && after.Array? {
        ItemsAreDisjoint(names, order, path, before, after, Max(|before.items|, |after.items|));
      } else {
        var all := Fields(before).Keys + Fields(after).Keys;
        assert Enumerates(order(path, all), all);
        KeysAreDisjoint(names, order, path, before, after, order(path, all));
      }
    }
  }

  lemma DiffPathsAreDisjoint(names: Names, order: Order, before: Json, after: Json)
    requires Lists(order)
    ensures Disjoint(Generate(names, order, before, after))
  {
    DeepIsDisjoint(names, order, [], before, after);
  }
}
