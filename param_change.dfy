/** `handleParamChange.js`: the updater a parameter control hands to a state
    setter. It replaces one field, either at the top level of the state or
    inside a nested record such as `params`, and optionally one element of
    an array-valued field. It builds new records by spreading and never
    changes `prev`, which here is automatic: records are values. */
module ParamChange {
  import opened Wrappers
  import Values
  import opened SeqUtil

  /** The JavaScript values a UI state holds. */
  datatype JsVal =
    | Undefined
    | Null
    | Bool(b: bool)
    | Num(n: Values.Number)
    | Str(s: string)
    | Arr(items: seq<JsVal>)
    | Obj(fields: map<string, JsVal>)

  /** A state record, such as `simState` or `uiState`. */
  type State = map<string, JsVal>

  /** JavaScript truthiness. */
  predicate Truthy(v: JsVal) {
    match v
    case Undefined => false
    case Null => false
    case Bool(b) => b
    case Num(n) => n.Infinite? || (n.Finite? && n.v != 0.0)
    case Str(s) => s != ""
    case Arr(_) => true
    case Obj(_) => true
  }

  /** `record[key]`: `undefined` when the key is absent. */
  function Lookup(record: map<string, JsVal>, key: string): JsVal {
    if key in record then record[key] else Undefined
  }

  /** `v[key]` for the value found at `prev[subpath]`. */
  function Property(v: JsVal, key: string): JsVal {
    if v.Obj? then Lookup(v.fields, key) else Undefined
  }

  /** The own fields `{ ...v }` copies. */
  function Spread(v: JsVal): map<string, JsVal> {
    if v.Obj? then v.fields else map[]
  }

  /** `subpath && prev[subpath]`: the update goes into a nested record. */
  predicate Nested(prev: State, subpath: Option<string>) {
    subpath.Some? && subpath.value != "" && Truthy(Lookup(prev, subpath.value))
  }

  /** `oldVal`: the value the update replaces. */
  function OldValue(prev: State, path: string, subpath: Option<string>): JsVal {
    if Nested(prev, subpath) then Property(prev[subpath.value], path) else Lookup(prev, path)
  }

  /** `updatedArray[index] = newValue` on a copy of `items`: inside the array
      one element changes; past its end the array grows, with holes that read
      as `undefined`; a negative index stores no element. */
  function StoredAt(items: seq<JsVal>, index: int, newValue: JsVal): seq<JsVal> {
    if index < 0 then items
    else if index < |items| then items[index := newValue]
    else items + Repeat(Undefined, index - |items|) + [newValue]
  }

  /** What is stored at `path`: the updated copy of an array when there is an
      index, otherwise the new value itself. */
  function Stored(oldVal: JsVal, newValue: JsVal, index: Option<int>): JsVal {
    if oldVal.Arr? && index.Some? then Arr(StoredAt(oldVal.items, index.value, newValue))
    else newValue
  }

  /** The state the updater returns. */
  function Updated(prev: State, path: string, newValue: JsVal, subpath: Option<string>, index: Option<int>): (r: State)
    ensures prev.Keys <= r.Keys
    ensures forall k :: k in prev && k != path && (subpath.None? || k != subpath.value) ==> r[k] == prev[k]
  {
    var stored := Stored(OldValue(prev, path, subpath), newValue, index);
    if Nested(prev, subpath) then
      prev[subpath.value := Obj(Spread(prev[subpath.value])[path := stored])]
    else
      prev[path := stored]
  }

  /** With a nested record present, only `prev[subpath][path]` changes: every
      other top-level field and every other field of the nested record keep
      their values. */
  lemma UpdatedNested(prev: State, path: string, newValue: JsVal, subpath: Option<string>, index: Option<int>)
    requires Nested(prev, subpath)
    ensures var r := Updated(prev, path, newValue, subpath, index);
      var sub := subpath.value;
      var inner := Spread(prev[sub]);
      r.Keys == prev.Keys &&
      (forall k :: k in prev && k != sub ==> r[k] == prev[k]) &&
      r[sub].Obj? && r[sub].fields.Keys == inner.Keys + {path} &&
      r[sub].fields[path] == Stored(OldValue(prev, path, subpath), newValue, index) &&
      (forall k :: k in inner && k != path ==> r[sub].fields[k] == inner[k])
  {
  }

  /** Without a subpath, or when `prev[subpath]` is falsy, only the top-level
      `prev[path]` changes. */
  lemma UpdatedTopLevel(prev: State, path: string, newValue: JsVal, subpath: Option<string>, index: Option<int>)
    requires !Nested(prev, subpath)
    ensures var r := Updated(prev, path, newValue, subpath, index);
      r.Keys == prev.Keys + {path} &&
      r[path] == Stored(Lookup(prev, path), newValue, index) &&
      (forall k :: k in prev && k != path ==> r[k] == prev[k])
  {
  }

  /** An array element inside the array is replaced in a copy of the same
      length; every other element is unchanged. */
  lemma ElementReplaced(items: seq<JsVal>, index: int, newValue: JsVal)
    requires 0 <= index < |items|
    ensures var r := StoredAt(items, index, newValue);
      |r| == |items| && r[index] == newValue &&
      (forall j :: 0 <= j < |items| && j != index ==> r[j] == items[j])
  {
  }

  /** Past the end, the copy grows to `index + 1` elements: the old ones,
      holes, and the new value last. */
  lemma ElementAppended(items: seq<JsVal>, index: int, newValue: JsVal)
    requires index >= |items|
    ensures var r := StoredAt(items, index, newValue);
      |r| == index + 1 && r[index] == newValue && r[..|items|] == items &&
      (forall j :: |items| <= j < index ==> r[j] == Undefined)
  {
    var r := StoredAt(items, index, newValue);
    assert r[..|items|] == items;
  }

  /** An index with an old value that is not an array replaces it whole. */
  lemma IndexWithoutArray(oldVal: JsVal, newValue: JsVal, index: Option<int>)
    requires !oldVal.Arr?
    ensures Stored(oldVal, newValue, index) == newValue
  {
  }

  /** Reading the field back after an update gives what was stored, unless
      the update created the nested record under its own name. */
  lemma ReadBack(prev: State, path: string, newValue: JsVal, subpath: Option<string>, index: Option<int>)
    requires Nested(prev, subpath) || subpath != Some(path)
    ensures OldValue(Updated(prev, path, newValue, subpath, index), path, subpath) ==
      Stored(OldValue(prev, path, subpath), newValue, index)
  {
    var r := Updated(prev, path, newValue, subpath, index);
    if Nested(prev, subpath) {
      assert Nested(r, subpath);
    } else if subpath.Some? && subpath.value != "" {
      assert Lookup(r, subpath.value) == Lookup(prev, subpath.value);
    }
  }

  /** Storing the same element twice is storing it once. */
  lemma StoredAtTwice(items: seq<JsVal>, index: int, newValue: JsVal)
    ensures StoredAt(StoredAt(items, index, newValue), index, newValue) == StoredAt(items, index, newValue)
  {
  }

  /** Repeating an update gives the state of applying it once, except in the
      two cases the counterexamples below exhibit. */
  lemma UpdatedIdempotent(prev: State, path: string, newValue: JsVal, subpath: Option<string>, index: Option<int>)
    requires Nested(prev, subpath) || subpath != Some(path)
    requires index.Some? && newValue.Arr? ==> OldValue(prev, path, subpath).Arr?
    ensures var once := Updated(prev, path, newValue, subpath, index);
      Updated(once, path, newValue, subpath, index) == once
  {
    var once := Updated(prev, path, newValue, subpath, index);
    var old1 := OldValue(prev, path, subpath);
    var stored := Stored(old1, newValue, index);
    ReadBack(prev, path, newValue, subpath, index);
    if old1.Arr? && index.Some? {
      StoredAtTwice(old1.items, index.value, newValue);
    }
    assert Stored(stored, newValue, index) == stored;
    if Nested(prev, subpath) {
      assert Nested(once, subpath);
      var sub := subpath.value;
      assert Spread(once[sub])[path := stored] == Spread(once[sub]);
    } else {
      assert !Nested(once, subpath) by {
        if subpath.Some? && subpath.value != "" {
          assert Lookup(once, subpath.value) == Lookup(prev, subpath.value);
        }
      }
    }
  }

  /** Setting a field named like its own subpath, when that record is
      missing, creates the record; repeating it nests a second copy. */
  lemma RepeatNestsUnderOwnName()
    ensures var v := Obj(map["R" := Num(Values.Finite(1.0))]);
      var once := Updated(map[], "params", v, Some("params"), None);
      Updated(once, "params", v, Some("params"), None) != once
  {
    var v := Obj(map["R" := Num(Values.Finite(1.0))]);
    var once := Updated(map[], "params", v, Some("params"), None);
    assert once == map["params" := v];
    var twice := Updated(once, "params", v, Some("params"), None);
    assert "params" in twice["params"].fields;
    assert "params" !in once["params"].fields;
  }

  /** An array stored with an index over a non-array value: repeating the
      update stores the array inside itself. */
  lemma RepeatNestsArray()
    ensures var v := Arr([Num(Values.Finite(1.0)), Num(Values.Finite(2.0))]);
      var prev := map["b" := Num(Values.Finite(3.0))];
      var once := Updated(prev, "b", v, None, Some(0));
      Updated(once, "b", v, None, Some(0)) != once
  {
    var v := Arr([Num(Values.Finite(1.0)), Num(Values.Finite(2.0))]);
    var prev := map["b" := Num(Values.Finite(3.0))];
    var once := Updated(prev, "b", v, None, Some(0));
    assert once["b"] == v;
    var twice := Updated(once, "b", v, None, Some(0));
    assert twice["b"] == Arr([v, Num(Values.Finite(2.0))]);
  }
}
