/** Plain JavaScript objects as the facade builds them for page structures:
    own properties in insertion order, and the field filters applied to them. */
module JsObjects {
  import opened Wrappers

  /** A property value: `undefined`, `null`, a string, a number, a boolean, a
      two-number record such as `{x, y}` or `{width, height}`, or an array of
      objects. */
  datatype Value =
    | Undef
    | Null
    | Str(s: string)
    | Num(n: real)
    | Bool(b: bool)
    | Pair(first: real, second: real)
    | Nodes(items: seq<Obj>)

  datatype Field = Field(key: string, value: Value)

  /** An object: its own properties, in insertion order. */
  datatype Obj = Obj(fields: seq<Field>)

  function KeysIn(fs: seq<Field>): (r: seq<string>)
    ensures |r| == |fs| && forall i | 0 <= i < |fs| :: r[i] == fs[i].key
  {
    if fs == [] then [] else [fs[0].key] + KeysIn(fs[1..])
  }

  function Keys(o: Obj): seq<string>
  {
    KeysIn(o.fields)
  }

  /** The value of the first property named `k`; None when the object has no
      such own property (`hasOwnProperty(k)` is false). */
  function GetIn(fs: seq<Field>, k: string): (r: Option<Value>)
    ensures r.Some? <==> k in KeysIn(fs)
  {
    if fs == [] then None else if fs[0].key == k then Some(fs[0].value) else GetIn(fs[1..], k)
  }

  function Get(o: Obj, k: string): Option<Value>
  {
    GetIn(o.fields, k)
  }

  /** `o[k] = v`: an existing property keeps its place, a new one goes last. */
  function SetIn(fs: seq<Field>, k: string, v: Value): (r: seq<Field>)
    ensures GetIn(r, k) == Some(v)
    ensures forall j | j != k :: GetIn(r, j) == GetIn(fs, j)
  {
    if fs == [] then [Field(k, v)]
    else if fs[0].key == k then [Field(k, v)] + fs[1..]
    else [fs[0]] + SetIn(fs[1..], k, v)
  }

  /** Assignment keeps the keys in place and adds a new key last. */
  lemma {:induction false} SetInKeys(fs: seq<Field>, k: string, v: Value)
    ensures KeysIn(SetIn(fs, k, v)) == if k in KeysIn(fs) then KeysIn(fs) else KeysIn(fs) + [k]
  {
    if fs != [] && fs[0].key != k {
      SetInKeys(fs[1..], k, v);
      var rest := SetIn(fs[1..], k, v);
      assert ([fs[0]] + rest)[1..] == rest;
      assert fs == [fs[0]] + fs[1..];
    } else if fs != [] {
      assert ([Field(k, v)] + fs[1..])[1..] == fs[1..];
    }
  }

  function Set(o: Obj, k: string, v: Value): Obj
  {
    Obj(SetIn(o.fields, k, v))
  }

  /** `delete o[k]`. */
  function DeleteIn(fs: seq<Field>, k: string): (r: seq<Field>)
    ensures GetIn(r, k) == None
    ensures forall j | j != k :: GetIn(r, j) == GetIn(fs, j)
  {
    if fs == [] then []
    else if fs[0].key == k then DeleteIn(fs[1..], k)
    else [fs[0]] + DeleteIn(fs[1..], k)
  }

  function Delete(o: Obj, k: string): Obj
  {
    Obj(DeleteIn(o.fields, k))
  }

  // ------------------------------------------------------------ field filters

  /** The options applyFieldFilters reads: a list of fields to keep and a list
      of fields to drop, each possibly absent (an empty list is present). */
  datatype FilterOptions = FilterOptions(fields: Option<seq<string>>, excludeFields: Option<seq<string>>)

  /** Copies, one listed field after another, the fields the object owns. */
  function Pick(o: Obj, fields: seq<string>): Obj
  {
    if fields == [] then Obj([])
    else
      var acc := Pick(o, fields[..|fields| - 1]);
      var f := fields[|fields| - 1];
      match Get(o, f)
      case Some(v) => Set(acc, f, v)
      case None => acc
  }

  /** Deletes each listed field in turn. */
  function DropAll(o: Obj, fields: seq<string>): Obj
  {
    if fields == [] then o else Delete(DropAll(o, fields[..|fields| - 1]), fields[|fields| - 1])
  }

  /** The top-level part of filterNode: keep the listed fields (or copy all),
      then drop the excluded ones. */
  function Select(o: Obj, opts: FilterOptions): Obj
  {
    var kept := if opts.fields.Some? then Pick(o, opts.fields.value) else o;
    if opts.excludeFields.Some? then DropAll(kept, opts.excludeFields.value) else kept
  }

  /** Whether a field survives the options. */
  predicate Kept(k: string, opts: FilterOptions)
  {
    (opts.fields.None? || k in opts.fields.value)
    && (opts.excludeFields.None? || k !in opts.excludeFields.value)
  }

  /** filterNode: every `children` array of objects filtered in turn, then the
      fields selected. Selecting only keeps or drops properties and the
      recursion only rewrites `children`, so the two steps commute; doing the
      recursion first lets it follow the structure of the object. */
  function FilterNode(o: Obj, opts: FilterOptions): Obj
    decreases o, 1
  {
    Select(Obj(FilterFields(o.fields, opts)), opts)
  }

  function FilterFields(fs: seq<Field>, opts: FilterOptions): (r: seq<Field>)
    ensures KeysIn(r) == KeysIn(fs)
    decreases fs, 0
  {
    if fs == [] then []
    else
      var f := fs[0];
      var g := if f.key == "children" && f.value.Nodes? then Field(f.key, Nodes(FilterItems(f.value.items, opts))) else f;
      [g] + FilterFields(fs[1..], opts)
  }

  function FilterItems(items: seq<Obj>, opts: FilterOptions): (r: seq<Obj>)
    ensures |r| == |items|
    decreases items, 2
  {
    if items == [] then [] else [FilterNode(items[0], opts)] + FilterItems(items[1..], opts)
  }

  /** applyFieldFilters: no filtering at all unless a field list or an
      exclusion list is given. */
  function ApplyFieldFilters(o: Obj, opts: FilterOptions): Obj
  {
    if opts.fields.None? && opts.excludeFields.None? then o else FilterNode(o, opts)
  }

  // ------------------------------------------------------------ filter lemmas

  /** A picked object owns exactly the listed fields the original owns, with
      the original's values. */
  lemma {:induction false} PickMeaning(o: Obj, fields: seq<string>, k: string)
    ensures Get(Pick(o, fields), k) == if k in fields then Get(o, k) else None
  {
    if fields != [] {
      var init := fields[..|fields| - 1];
      PickMeaning(o, init, k);
      assert k in fields <==> k in init || k == fields[|fields| - 1];
    }
  }

  lemma {:induction false} DropMeaning(o: Obj, fields: seq<string>, k: string)
    ensures Get(DropAll(o, fields), k) == if k in fields then None else Get(o, k)
  {
    if fields != [] {
      var init := fields[..|fields| - 1];
      DropMeaning(o, init, k);
      assert k in fields <==> k in init || k == fields[|fields| - 1];
    }
  }

  /** A field survives the selection exactly when the options keep it, and
      then with its value unchanged. */
  lemma SelectMeaning(o: Obj, opts: FilterOptions, k: string)
    ensures Get(Select(o, opts), k) == if Kept(k, opts) then Get(o, k) else None
  {
    var kept := if opts.fields.Some? then Pick(o, opts.fields.value) else o;
    if opts.fields.Some? {
      PickMeaning(o, opts.fields.value, k);
    }
    if opts.excludeFields.Some? {
      DropMeaning(kept, opts.excludeFields.value, k);
    }
  }

  /** A `children` array of objects, each filtered; any other value as it is. */
  function ChildrenFiltered(v: Option<Value>, opts: FilterOptions): Option<Value>
  {
    if v.Some? && v.value.Nodes? then Some(Nodes(FilterItems(v.value.items, opts))) else v
  }

  lemma {:induction false} FilterFieldsGet(fs: seq<Field>, opts: FilterOptions, k: string)
    ensures k != "children" ==> GetIn(FilterFields(fs, opts), k) == GetIn(fs, k)
    ensures k == "children" ==> GetIn(FilterFields(fs, opts), k) == ChildrenFiltered(GetIn(fs, k), opts)
  {
    if fs != [] {
      FilterFieldsGet(fs[1..], opts, k);
    }
  }

  lemma {:induction false} FilterItemsAre(items: seq<Obj>, opts: FilterOptions)
    ensures forall i | 0 <= i < |items| :: FilterItems(items, opts)[i] == FilterNode(items[i], opts)
  {
    if items != [] {
      FilterItemsAre(items[1..], opts);
    }
  }

  /** applyFieldFilters keeps exactly the fields the options allow, with the
      original values, except that a surviving `children` array holds its
      objects filtered the same way, in the same order. */
  lemma FilterMeaning(o: Obj, opts: FilterOptions, k: string)
    requires opts.fields.Some? || opts.excludeFields.Some?
    ensures var r := ApplyFieldFilters(o, opts);
      && (k != "children" ==> Get(r, k) == if Kept(k, opts) then Get(o, k) else None)
      && (k == "children" ==>
            Get(r, k) == if Kept(k, opts) then ChildrenFiltered(Get(o, k), opts) else None)
  {
    SelectMeaning(Obj(FilterFields(o.fields, opts)), opts, k);
    FilterFieldsGet(o.fields, opts, k);
  }

  /** Every field of a filtered object is one the options allow. */
  lemma FilteredKeys(o: Obj, opts: FilterOptions, k: string)
    requires opts.fields.Some? || opts.excludeFields.Some?
    requires k in Keys(ApplyFieldFilters(o, opts))
    ensures Kept(k, opts) && k in Keys(o)
  {
    FilterMeaning(o, opts, k);
  }
}
