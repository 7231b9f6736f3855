/**
  Conversion between JSON and Lua values (src/lua_host/main.cc): both directions work on
  the Lua stack, with tables on the Lua heap.
 */
module LuaJson {
  import opened Wrappers
  import opened JsonValue

  // ---------------------------------------------------------------- Lua values

  /** `Light(0)` is the null light userdata; `Other` stands for functions, threads and full userdata. */
  datatype Value =
    | Nil
    | Boolean(b: bool)
    | Number(x: real)
    | String(s: string)
    | Light(address: nat)
    | Table(ref: nat)
    | Other(id: nat)

  type Entries = map<Value, Value>
  type Heap = map<nat, Entries>

  /** What the Lua runtime decides: the order lua_next visits a table in, and the text of a number. */
  datatype Host = Host(order: nat -> seq<Value>, text: real -> string)

  /** lua_next visits every key once. */
  ghost predicate Visits(keys: seq<Value>, t: Entries) {
    && (forall k :: k in keys <==> k in t.Keys)
    && (forall i, j :: 0 <= i < j < |keys| ==> keys[i] != keys[j])
  }

  ghost predicate Faithful(host: Host, heap: Heap) {
    forall r :: r in heap ==> Visits(host.order(r), heap[r])
  }

  // ---------------------------------------------------------------- arrays

  function Index(i: int): Value {
    Number(i as real)
  }

  /** The keys 1..n. */
  function FirstKeys(n: nat): set<Value> {
    set i | 1 <= i <= n :: Index(i)
  }

  predicate IsIndex(k: Value) {
    k.Number? && k.x == k.x.Floor as real && k.x >= 1.0
  }

  /** A table is an array when its keys are 1..n for some positive n. */
  predicate IsArray(t: Entries) {
    |t| > 0 && t.Keys == FirstKeys(|t|)
  }

  lemma {:induction false} FirstKeysCount(n: nat)
    ensures |FirstKeys(n)| == n
    decreases n
  {
    if n == 0 {
      assert FirstKeys(0) == {};
    } else {
      FirstKeysCount(n - 1);
      var last := Index(n);
      assert last !in FirstKeys(n - 1);
      assert FirstKeys(n) == FirstKeys(n - 1) + {last};
    }
  }

  lemma {:induction false} SubsetCount(a: set<Value>, b: set<Value>)
    requires a <= b
    ensures |a| <= |b| && (|a| == |b| ==> a == b)
    decreases |b|
  {
    if a != {} {
      var x :| x in a;
      SubsetCount(a - {x}, b - {x});
      assert a == (a - {x}) + {x} && b == (b - {x}) + {x};
    }
  }

  /** Positive integers with no more of them than the largest: all of 1..n, by counting. */
  lemma IndicesAreFirst(keys: set<Value>, max: nat)
    requires forall k :: k in keys ==> IsIndex(k) && k.x <= max as real
    requires |keys| == max
    ensures keys == FirstKeys(max)
  {
    forall k | k in keys ensures k in FirstKeys(max) {
      var i := k.x.Floor;
      assert 1 <= i <= max && k == Index(i);
    }
    FirstKeysCount(max);
    SubsetCount(keys, FirstKeys(max));
  }

  lemma ArrayKeys(keys: seq<Value>, t: Entries)
    requires Visits(keys, t) && IsArray(t)
    ensures forall k :: 0 <= k < |keys| ==> IsIndex(keys[k]) && keys[k].x <= |t| as real
    ensures exists k :: 0 <= k < |keys| && keys[k] == Index(|t|)
  {
    forall k | 0 <= k < |keys| ensures IsIndex(keys[k]) && keys[k].x <= |t| as real {
      assert keys[k] in FirstKeys(|t|);
    }
    assert Index(|t|) in FirstKeys(|t|);
    assert Index(|t|) in keys;
  }

  lemma VisitCount(keys: seq<Value>, t: Entries)
    requires Visits(keys, t)
    ensures |keys| == |t|
  {
    SeqCount(keys);
    assert (set k | k in keys) == t.Keys;
  }

  lemma {:induction false} SeqCount(keys: seq<Value>)
    requires forall i, j :: 0 <= i < j < |keys| ==> keys[i] != keys[j]
    ensures |set k | k in keys| == |keys|
    decreases |keys|
  {
    if keys != [] {
      var n := |keys| - 1;
      SeqCount(keys[..n]);
      assert keys == keys[..n] + [keys[n]];
      assert (set k | k in keys) == (set k | k in keys[..n]) + {keys[n]};
    }
  }

  // ---------------------------------------------------------------- Lua to JSON

  datatype Failure = TooDeep

  function Get(t: Entries, k: Value): Value {
    if k in t then t[k] else Nil
  }

  /** The JSON key for a table key: strings and numbers have one. */
  function KeyText(host: Host, k: Value): Option<string> {
    if k.String? then Some(k.s) else if k.Number? then Some(host.text(k.x)) else None
  }

  /** `lua_value_to_json`; a value JSON cannot express gives no JSON at all. */
  function ToJson(host: Host, heap: Heap, v: Value, depth: nat): Result<Option<Json>, Failure>
    decreases if depth > 64 then 0 else 65 - depth, 2
  {
    if depth > 64 then Err(TooDeep)
    else
      match v
      case Nil => Ok(Some(Null))
      case Boolean(b) => Ok(Some(Bool(b)))
      case Number(x) => Ok(Some(Num(x)))
      case String(s) => Ok(Some(Str(s)))
      case Light(address) => Ok(if address == 0 then Some(Null) else None)
      case Table(ref) => if ref in heap then TableToJson(host, heap, ref, depth) else Ok(None)
      case Other(_) => Ok(None)
  }

  /** `lua_table_to_json`. */
  function TableToJson(host: Host, heap: Heap, ref: nat, depth: nat): Result<Option<Json>, Failure>
    requires ref in heap && depth <= 64
    decreases 65 - depth, 1
  {
    if IsArray(heap[ref]) then
      match Items(host, heap, heap[ref], |heap[ref]|, depth)
      case Err(_) => Err(TooDeep)
      case Ok(items) => Ok(Some(Arr(items)))
    else
      match Fields(host, heap, heap[ref], host.order(ref), depth)
      case Err(_) => Err(TooDeep)
      case Ok(fields) => Ok(Some(Obj(fields)))
  }

  /** The entries 1..n; what JSON cannot express becomes null. */
  function Items(host: Host, heap: Heap, t: Entries, n: nat, depth: nat): Result<seq<Json>, Failure>
    requires depth <= 64
    decreases 65 - depth, 0, n
  {
    if n == 0 then Ok([])
    else
      match Items(host, heap, t, n - 1, depth)
      case Err(_) => Err(TooDeep)
      case Ok(items) =>
        match ToJson(host, heap, Get(t, Index(n)), depth + 1)
        case Err(_) => Err(TooDeep)
        case Ok(item) => Ok(items + [if item.Some? then item.value else Null])
  }

  /** The entries under the given keys, a later one winning; what JSON cannot express is dropped. */
  function Fields(host: Host, heap: Heap, t: Entries, keys: seq<Value>, depth: nat): Result<map<string, Json>, Failure>
    requires depth <= 64
    decreases 65 - depth, 0, |keys|
  {
    if keys == [] then Ok(map[])
    else
      var k := keys[|keys| - 1];
      match Fields(host, heap, t, keys[..|keys| - 1], depth)
      case Err(_) => Err(TooDeep)
      case Ok(fields) =>
        if KeyText(host, k).None? then Ok(fields)
        else
          match ToJson(host, heap, Get(t, k), depth + 1)
          case Err(_) => Err(TooDeep)
          case Ok(v) => Ok(if v.Some? then fields[KeyText(host, k).value := v.value] else fields)
  }

  /** A table that converts becomes an array exactly when its keys are 1..n for some positive n. */
  lemma ConvertsToArrayIff(host: Host, heap: Heap, ref: nat, depth: nat)
    requires ref in heap && depth <= 64
    ensures match TableToJson(host, heap, ref, depth)
            case Ok(Some(j)) => j.Arr? <==> exists n: nat :: n > 0 && heap[ref].Keys == FirstKeys(n)
            case Ok(None) => false
            case Err(_) => true
  {
    var t := heap[ref];
    forall n: nat | n > 0 && t.Keys == FirstKeys(n) ensures IsArray(t) {
      FirstKeysCount(n);
      assert |t| == |t.Keys|;
    }
  }

  // ---------------------------------------------------------------- what a pushed value holds

  /** Nested no deeper than d. */
  predicate Within(j: Json, d: int) {
    && d >= 0
    && match j
       case Arr(items) => forall i :: 0 <= i < |items| ==> Within(items[i], d - 1)
       case Obj(fields) => forall k :: k in fields ==> Within(fields[k], d - 1)
       case _ => true
  }

  /** The keys of an object, as Lua strings. */
  function StringKeys(fields: map<string, Json>): set<Value> {
    set k | k in fields :: String(k)
  }

  predicate NulFreeKey(k: string) {
    forall i :: 0 <= i < |k| ==> k[i] != '\0'
  }

  /** No key contains a NUL. */
  predicate NulFree(j: Json) {
    match j
    case Arr(items) => forall i :: 0 <= i < |items| ==> NulFree(items[i])
    case Obj(fields) => forall k :: k in fields ==> NulFreeKey(k) && NulFree(fields[k])
    case _ => true
  }

  /** What Lua cannot tell apart: an empty array is an empty object. */
  function Norm(j: Json): Json {
    match j
    case Arr(items) => if items == [] then Obj(map[]) else Arr(seq(|items|, i requires 0 <= i < |items| => Norm(items[i])))
    case Obj(fields) => Obj(map k | k in fields :: Norm(fields[k]))
    case _ => j
  }

  /** The Lua value v is the pushed form of j, its tables standing at `lo` and above, children after parents. */
  predicate Holds(heap: Heap, lo: nat, v: Value, j: Json)
    decreases j
  {
    match j
    case Null => v == Light(0)
    case Bool(b) => v == Boolean(b)
    case Num(n) => v == Number(n)
    case Str(s) => v == String(s)
    case Arr(items) =>
      && v.Table? && lo <= v.ref && v.ref in heap && heap[v.ref].Keys == FirstKeys(|items|)
      && forall i :: 0 <= i < |items| ==> Holds(heap, v.ref + 1, Get(heap[v.ref], Index(i + 1)), items[i])
    case Obj(fields) =>
      && v.Table? && lo <= v.ref && v.ref in heap && heap[v.ref].Keys == StringKeys(fields)
      && forall k :: k in fields ==> Holds(heap, v.ref + 1, Get(heap[v.ref], String(k)), fields[k])
  }

  /** Nothing at `lo` and above is lost or changed. */
  ghost predicate Extends(heap: Heap, heap2: Heap, lo: nat) {
    forall r :: r in heap && lo <= r ==> r in heap2 && heap2[r] == heap[r]
  }

  lemma {:induction false} HoldsStays(heap: Heap, heap2: Heap, lo: nat, low: nat, v: Value, j: Json)
    requires Holds(heap, lo, v, j) && low <= lo && Extends(heap, heap2, lo)
    ensures Holds(heap2, low, v, j)
    decreases j
  {
    match j
    case Arr(items) =>
      forall i | 0 <= i < |items|
        ensures Holds(heap2, v.ref + 1, Get(heap2[v.ref], Index(i + 1)), items[i])
      {
        HoldsStays(heap, heap2, v.ref + 1, v.ref + 1, Get(heap[v.ref], Index(i + 1)), items[i]);
      }
    case Obj(fields) =>
      forall k | k in fields
        ensures Holds(heap2, v.ref + 1, Get(heap2[v.ref], String(k)), fields[k])
      {
        HoldsStays(heap, heap2, v.ref + 1, v.ref + 1, Get(heap[v.ref], String(k)), fields[k]);
      }
    case _ =>
  }

  /** What converting v to JSON visits is nested no deeper than n. */
  ghost predicate Nested(host: Host, heap: Heap, v: Value, n: int)
    decreases if n < 0 then 0 else n + 1
  {
    && n >= 0
    && (v.Table? && v.ref in heap ==>
          forall k :: k in heap[v.ref] && KeyText(host, k).Some? ==> Nested(host, heap, heap[v.ref][k], n - 1))
  }

  /** A pushed value is nested in Lua as deep as it was in JSON. */
  lemma {:induction false} HeldNesting(host: Host, heap: Heap, lo: nat, v: Value, j: Json, n: int)
    requires Holds(heap, lo, v, j)
    ensures Nested(host, heap, v, n) <==> Within(j, n)
    decreases j, 1
  {
    if n >= 0 {
      match j
      case Arr(items) =>
        HeldItemsNesting(host, heap, v, j, n);
      case Obj(fields) =>
        HeldFieldsNesting(host, heap, v, j, n);
      case _ =>
    }
  }

  lemma {:induction false} HeldItemsNesting(host: Host, heap: Heap, v: Value, j: Json, n: nat)
    requires j.Arr? && v.Table? && v.ref in heap && heap[v.ref].Keys == FirstKeys(|j.items|)
    requires forall i :: 0 <= i < |j.items| ==> Holds(heap, v.ref + 1, Get(heap[v.ref], Index(i + 1)), j.items[i])
    ensures Nested(host, heap, v, n) <==> Within(j, n)
    decreases j, 0
  {
    var t := heap[v.ref];
    forall i | 0 <= i < |j.items|
      ensures Index(i + 1) in t && (Nested(host, heap, t[Index(i + 1)], n - 1) <==> Within(j.items[i], n - 1))
    {
      assert Index(i + 1) in FirstKeys(|j.items|);
      HeldNesting(host, heap, v.ref + 1, t[Index(i + 1)], j.items[i], n - 1);
    }
    if Within(j, n) {
      forall k | k in t ensures Nested(host, heap, t[k], n - 1) {
        var i :| 1 <= i <= |j.items| && k == Index(i);
        assert k == Index((i - 1) + 1) && Within(j.items[i - 1], n - 1);
      }
    }
  }

  lemma {:induction false} HeldFieldsNesting(host: Host, heap: Heap, v: Value, j: Json, n: nat)
    requires j.Obj? && v.Table? && v.ref in heap && heap[v.ref].Keys == StringKeys(j.fields)
    requires forall k :: k in j.fields ==> Holds(heap, v.ref + 1, Get(heap[v.ref], String(k)), j.fields[k])
    ensures Nested(host, heap, v, n) <==> Within(j, n)
    decreases j, 0
  {
    var t := heap[v.ref];
    forall k | k in j.fields
      ensures String(k) in t && (Nested(host, heap, t[String(k)], n - 1) <==> Within(j.fields[k], n - 1))
    {
      assert String(k) in StringKeys(j.fields);
      HeldNesting(host, heap, v.ref + 1, t[String(k)], j.fields[k], n - 1);
    }
    if Within(j, n) {
      forall k | k in t ensures Nested(host, heap, t[k], n - 1) {
        assert k in StringKeys(j.fields) && k == String(k.s);
      }
    }
  }

  // ---------------------------------------------------------------- reading back

  lemma NotArrayWhenStrings(t: Entries, fields: map<string, Json>)
    requires t.Keys == StringKeys(fields)
    ensures !IsArray(t)
  {
    assert Index(1) !in t.Keys;
    assert |t| > 0 ==> Index(1) in FirstKeys(|t|);
  }

  /** All items convert: they come out in order. */
  lemma {:induction false} ItemsSucceed(host: Host, heap: Heap, t: Entries, items: seq<Json>, n: nat, depth: nat)
    requires depth <= 64 && n <= |items|
    requires forall i :: 0 <= i < n ==> ToJson(host, heap, Get(t, Index(i + 1)), depth + 1) == Ok(Some(items[i]))
    ensures Items(host, heap, t, n, depth) == Ok(items[..n])
    decreases n
  {
    if n > 0 {
      ItemsSucceed(host, heap, t, items, n - 1, depth);
      assert ToJson(host, heap, Get(t, Index(n)), depth + 1) == Ok(Some(items[n - 1]));
      assert items[..n] == items[..n - 1] + [items[n - 1]];
    }
  }

  lemma {:induction false} ItemsFail(host: Host, heap: Heap, t: Entries, n: nat, depth: nat, k: nat)
    requires depth <= 64 && 1 <= k <= n && ToJson(host, heap, Get(t, Index(k)), depth + 1).Err?
    ensures Items(host, heap, t, n, depth) == Err(TooDeep)
    decreases n
  {
    if k < n {
      ItemsFail(host, heap, t, n - 1, depth, k);
    }
  }

  /** One more key. */
  lemma FieldsStep(host: Host, heap: Heap, t: Entries, keys: seq<Value>, k: Value, depth: nat)
    requires depth <= 64 && Fields(host, heap, t, keys, depth).Ok?
    ensures var before, v := Fields(host, heap, t, keys, depth), ToJson(host, heap, Get(t, k), depth + 1);
            Fields(host, heap, t, keys + [k], depth)
            == if KeyText(host, k).None? then before
               else if v.Err? then Err(TooDeep)
               else if v.value.None? then before
               else Ok(before.value[KeyText(host, k).value := v.value.value])
  {
    assert (keys + [k])[..|keys|] == keys;
  }

  /** The entries under these string keys, and nothing else. */
  ghost predicate Picked(got: map<string, Json>, keys: seq<Value>, fields: map<string, Json>) {
    && (forall s :: s in got <==> String(s) in keys)
    && (forall s :: s in got ==> s in fields && got[s] == fields[s])
  }

  lemma PickedStep(got: map<string, Json>, keys: seq<Value>, fields: map<string, Json>, s: string)
    requires Picked(got, keys, fields) && s in fields
    ensures Picked(got[s := fields[s]], keys + [String(s)], fields)
  {
  }

  /** All entries under string keys convert: each comes out under its key. */
  lemma {:induction false} FieldsSucceed(host: Host, heap: Heap, t: Entries, fields: map<string, Json>,
                                         keys: seq<Value>, depth: nat)
    requires depth <= 64
    requires forall i :: 0 <= i < |keys| ==>
               && keys[i].String? && keys[i].s in fields
               && ToJson(host, heap, Get(t, keys[i]), depth + 1) == Ok(Some(fields[keys[i].s]))
    ensures Fields(host, heap, t, keys, depth).Ok? && Picked(Fields(host, heap, t, keys, depth).value, keys, fields)
    decreases |keys|
  {
    if keys != [] {
      var n := |keys| - 1;
      var init, last := keys[..n], keys[n];
      FieldsSucceed(host, heap, t, fields, init, depth);
      assert keys == init + [last];
      FieldsStep(host, heap, t, init, last, depth);
      PickedStep(Fields(host, heap, t, init, depth).value, init, fields, last.s);
    }
  }

  lemma {:induction false} FieldsFail(host: Host, heap: Heap, t: Entries, keys: seq<Value>, depth: nat, k: nat)
    requires depth <= 64 && k < |keys| && KeyText(host, keys[k]).Some?
    requires ToJson(host, heap, Get(t, keys[k]), depth + 1).Err?
    ensures Fields(host, heap, t, keys, depth) == Err(TooDeep)
    decreases |keys|
  {
    if k < |keys| - 1 {
      FieldsFail(host, heap, t, keys[..|keys| - 1], depth, k);
    }
  }

  /** What reading a pushed value back should give. */
  function ReadBack(j: Json, depth: nat): Result<Option<Json>, Failure> {
    if Within(j, 64 - depth) then Ok(Some(Norm(j))) else Err(TooDeep)
  }

  /** A pushed value is read back normalised, unless it is nested too deep. */
  lemma {:induction false} ReadsBack(host: Host, heap: Heap, lo: nat, v: Value, j: Json, depth: nat)
    requires Faithful(host, heap) && Holds(heap, lo, v, j)
    ensures ToJson(host, heap, v, depth) == ReadBack(j, depth)
    decreases j
  {
    if depth <= 64 {
      match j
      case Arr(items) =>
        forall i | 0 <= i < |items|
          ensures ToJson(host, heap, Get(heap[v.ref], Index(i + 1)), depth + 1) == ReadBack(items[i], depth + 1)
        {
          ReadsBack(host, heap, v.ref + 1, Get(heap[v.ref], Index(i + 1)), items[i], depth + 1);
        }
        ArrayReadsBack(host, heap, v, j, depth);
      case Obj(fields) =>
        forall k | k in fields
          ensures ToJson(host, heap, Get(heap[v.ref], String(k)), depth + 1) == ReadBack(fields[k], depth + 1)
        {
          ReadsBack(host, heap, v.ref + 1, Get(heap[v.ref], String(k)), fields[k], depth + 1);
        }
        ObjectReadsBack(host, heap, v, j, depth);
      case _ =>
    }
  }

  lemma NormItems(items: seq<Json>) returns (ns: seq<Json>)
    requires items != []
    ensures Norm(Arr(items)) == Arr(ns) && |ns| == |items|
    ensures forall i :: 0 <= i < |items| ==> ns[i] == Norm(items[i])
  {
    ns := Norm(Arr(items)).items;
  }

  lemma ArrayReadsBack(host: Host, heap: Heap, v: Value, j: Json, depth: nat)
    requires depth <= 64 && j.Arr? && v.Table? && v.ref in heap && heap[v.ref].Keys == FirstKeys(|j.items|)
    requires Faithful(host, heap)
    requires forall i :: 0 <= i < |j.items| ==>
               ToJson(host, heap, Get(heap[v.ref], Index(i + 1)), depth + 1) == ReadBack(j.items[i], depth + 1)
    ensures ToJson(host, heap, v, depth) == ReadBack(j, depth)
  {
    var t, items := heap[v.ref], j.items;
    FirstKeysCount(|items|);
    assert |t| == |items|;
    if items == [] {
      assert Visits(host.order(v.ref), t);
      VisitCount(host.order(v.ref), t);
      assert host.order(v.ref) == [] && !IsArray(t);
      assert Fields(host, heap, t, [], depth) == Ok(map[]);
      assert TableToJson(host, heap, v.ref, depth) == Ok(Some(Obj(map[])));
      assert Within(j, 64 - depth) && Norm(j) == Obj(map[]);
    } else if i :| 0 <= i < |items| && !Within(items[i], 64 - depth - 1) {
      ItemsFail(host, heap, t, |items|, depth, i + 1);
    } else {
      var ns := NormItems(items);
      ItemsSucceed(host, heap, t, ns, |items|, depth);
      assert ns[..|items|] == ns;
    }
  }

  /** The entries of a pushed object, read back in whatever order. */
  lemma FieldsReadBack(host: Host, heap: Heap, t: Entries, keys: seq<Value>, fields: map<string, Json>, depth: nat)
    requires depth <= 64 && Visits(keys, t) && t.Keys == StringKeys(fields)
    requires forall k :: k in fields ==> ToJson(host, heap, Get(t, String(k)), depth + 1) == Ok(Some(fields[k]))
    ensures Fields(host, heap, t, keys, depth) == Ok(fields)
  {
    forall i | 0 <= i < |keys|
      ensures keys[i].String? && keys[i].s in fields
              && ToJson(host, heap, Get(t, keys[i]), depth + 1) == Ok(Some(fields[keys[i].s]))
    {
      assert keys[i] in t.Keys;
    }
    FieldsSucceed(host, heap, t, fields, keys, depth);
    var got := Fields(host, heap, t, keys, depth).value;
    forall s ensures s in got <==> s in fields {
      assert s in fields <==> String(s) in t.Keys;
    }
    assert got == fields;
  }

  lemma ObjectReadsBack(host: Host, heap: Heap, v: Value, j: Json, depth: nat)
    requires depth <= 64 && j.Obj? && v.Table? && v.ref in heap
    requires heap[v.ref].Keys == StringKeys(j.fields)
    requires Faithful(host, heap)
    requires forall k :: k in j.fields ==>
               ToJson(host, heap, Get(heap[v.ref], String(k)), depth + 1) == ReadBack(j.fields[k], depth + 1)
    ensures ToJson(host, heap, v, depth) == ReadBack(j, depth)
  {
    var t, fields, keys := heap[v.ref], j.fields, host.order(v.ref);
    NotArrayWhenStrings(t, fields);
    assert Visits(keys, t);
    if k :| k in fields && !Within(fields[k], 64 - depth - 1) {
      assert String(k) in t.Keys;
      var i :| 0 <= i < |keys| && keys[i] == String(k);
      FieldsFail(host, heap, t, keys, depth, i);
    } else {
      NormFields(fields);
      FieldsReadBack(host, heap, t, keys, Norm(j).fields, depth);
    }
  }

  lemma NormFields(fields: map<string, Json>)
    ensures Norm(Obj(fields)).Obj? && Norm(Obj(fields)).fields.Keys == fields.Keys
    ensures forall k :: k in fields ==> Norm(Obj(fields)).fields[k] == Norm(fields[k])
    ensures StringKeys(Norm(Obj(fields)).fields) == StringKeys(fields)
  {
  }

  lemma {:induction false} NormKeepsKeys(j: Json)
    ensures NulFree(Norm(j)) <==> NulFree(j)
    decreases j
  {
    match j
    case Arr(items) =>
      forall i | 0 <= i < |items| ensures NulFree(Norm(items[i])) <==> NulFree(items[i]) {
        NormKeepsKeys(items[i]);
      }
      if items != [] {
        var ns := Norm(j).items;
        assert forall i :: 0 <= i < |items| ==> ns[i] == Norm(items[i]);
      }
    case Obj(fields) =>
      forall k | k in fields ensures NulFree(Norm(fields[k])) <==> NulFree(fields[k]) {
        NormKeepsKeys(fields[k]);
      }
      var ns := Norm(j).fields;
      assert ns.Keys == fields.Keys && forall k :: k in fields ==> ns[k] == Norm(fields[k]);
    case _ =>
  }

  // ---------------------------------------------------------------- JSON to Lua

  /** What lua_setfield makes of a key. */
  function Cut(k: string): string {
    if k == [] || k[0] == '\0' then [] else [k[0]] + Cut(k[1..])
  }

  /** A cut key is what stands before the first NUL. */
  lemma {:induction false} CutEndsAtNul(k: string)
    ensures Cut(k) <= k && NulFreeKey(Cut(k)) && (Cut(k) == k || k[|Cut(k)|] == '\0')
    ensures NulFreeKey(k) <==> Cut(k) == k
    decreases |k|
  {
    if k != [] && k[0] != '\0' {
      var c := Cut(k[1..]);
      CutEndsAtNul(k[1..]);
      assert NulFreeKey(k) ==> NulFreeKey(k[1..]);
      assert NulFreeKey([k[0]] + c);
      assert k == [k[0]] + k[1..];
    }
  }

  /**
    What Lua sees of a value: the same, but under cut keys.  When several keys are cut alike,
    one of their values is there.
   */
  ghost predicate CutOf(value: Json, seen: Json)
    decreases value, 1
  {
    match value
    case Arr(items) =>
      seen.Arr? && |seen.items| == |items| && forall i :: 0 <= i < |items| ==> CutOf(items[i], seen.items[i])
    case Obj(fields) =>
      && seen.Obj? && (forall k :: k in fields ==> Cut(k) in seen.fields)
      && (forall c :: c in seen.fields ==> CutFrom(value, fields.Keys, c, seen.fields[c]))
    case _ => seen == value
  }

  /** `seen` is what Lua sees of a value standing under one of these keys, which is cut to `c`. */
  ghost predicate CutFrom(value: Json, keys: set<string>, c: string, seen: Json)
    requires value.Obj?
    decreases value, 0
  {
    exists k :: k in keys && k in value.fields && Cut(k) == c && CutOf(value.fields[k], seen)
  }

  lemma {:induction false} CutOfNulFree(value: Json, seen: Json)
    requires CutOf(value, seen) && NulFree(value)
    ensures seen == value
    decreases value, 2
  {
    match value
    case Arr(items) =>
      forall i | 0 <= i < |items| ensures seen.items[i] == items[i] {
        CutOfNulFree(items[i], seen.items[i]);
      }
      assert seen.items == items;
    case Obj(fields) =>
      CutFieldsNulFree(value, seen);
      SameFields(fields, seen.fields);
    case _ =>
  }

  lemma SameFields(fields: map<string, Json>, seen: map<string, Json>)
    requires forall c :: c in seen ==> c in fields && seen[c] == fields[c]
    requires forall k :: k in fields ==> k in seen
    ensures seen == fields
  {
  }

  lemma {:induction false} CutFieldsNulFree(value: Json, seen: Json)
    requires value.Obj? && CutOf(value, seen) && NulFree(value)
    ensures forall c :: c in seen.fields ==> c in value.fields && seen.fields[c] == value.fields[c]
    ensures forall k :: k in value.fields ==> k in seen.fields
    decreases value, 1
  {
    forall c | c in seen.fields ensures c in value.fields && seen.fields[c] == value.fields[c] {
      CutFromNulFree(value, c, seen.fields[c]);
    }
    forall k | k in value.fields ensures k in seen.fields {
      CutEndsAtNul(k);
    }
  }

  lemma {:induction false} CutFromNulFree(value: Json, c: string, seen: Json)
    requires value.Obj? && NulFree(value) && CutFrom(value, value.fields.Keys, c, seen)
    ensures c in value.fields && value.fields[c] == seen
    decreases value, 0
  {
    var k :| k in value.fields.Keys && k in value.fields && Cut(k) == c && CutOf(value.fields[k], seen);
    CutEndsAtNul(k);
    CutOfNulFree(value.fields[k], seen);
  }

  /** The value on the stack holds `seen`, which is the JSON value under cut keys. */
  ghost predicate Pushed(heap: Heap, lo: nat, v: Value, value: Json, seen: Json, d: int) {
    && Holds(heap, lo, v, seen) && NulFree(seen) && Within(seen, d)
    && CutOf(value, seen)
  }

  /** Storing nil removes an entry. */
  function Assigned(t: Entries, k: Value, v: Value): Entries {
    if v == Nil then t - {k} else t[k := v]
  }

  lemma PushedIsNotNil(heap: Heap, lo: nat, v: Value, seen: Json)
    requires Holds(heap, lo, v, seen)
    ensures v != Nil
  {
  }

  /** An array table under construction: its first entries hold the first items. */
  ghost predicate ItemsPushed(heap: Heap, r: nat, items: seq<Json>, seen: seq<Json>, d: int) {
    && r in heap && |seen| <= |items| && heap[r].Keys == FirstKeys(|seen|)
    && forall i :: 0 <= i < |seen| ==>
         && Within(items[i], d)
         && Pushed(heap, r + 1, Get(heap[r], Index(i + 1)), items[i], seen[i], d)
  }

  lemma PushedStays(heap: Heap, heap2: Heap, lo: nat, low: nat, v: Value, value: Json, seen: Json, d: int)
    requires Pushed(heap, lo, v, value, seen, d) && low <= lo && Extends(heap, heap2, lo)
    ensures Pushed(heap2, low, v, value, seen, d)
  {
    HoldsStays(heap, heap2, lo, low, v, seen);
  }

  lemma ItemStored(heap: Heap, heap2: Heap, r: nat, items: seq<Json>, seen: seq<Json>, d: int, v: Value, item: Json)
    requires ItemsPushed(heap, r, items, seen, d) && |seen| < |items| && Extends(heap, heap2, r)
    requires Within(items[|seen|], d) && Pushed(heap2, r + 1, v, items[|seen|], item, d)
    ensures r in heap2
    ensures ItemsPushed(heap2[r := heap2[r][Index(|seen| + 1) := v]], r, items, seen + [item], d)
  {
    var n, k := |seen|, Index(|seen| + 1);
    var heap3 := heap2[r := heap2[r][k := v]];
    assert heap3[r].Keys == FirstKeys(n) + {k} == FirstKeys(n + 1);
    forall i | 0 <= i < n + 1
      ensures Pushed(heap3, r + 1, Get(heap3[r], Index(i + 1)), items[i], (seen + [item])[i], d)
    {
      if i < n {
        PushedStays(heap, heap3, r + 1, r + 1, Get(heap[r], Index(i + 1)), items[i], seen[i], d);
        assert Index(i + 1) in FirstKeys(n) && Index(i + 1) != k;
      } else {
        PushedStays(heap2, heap3, r + 1, r + 1, v, items[i], item, d);
      }
    }
  }

  /** The same, for a value pushed above `low` while the heap only grew. */
  lemma ItemKept(heap: Heap, heap2: Heap, low: nat, r: nat, value: Json, seen: seq<Json>, d: int, v: Value, item: Json)
    requires value.Arr? && |seen| < |value.items| && r < low && r in heap2 && Extends(heap, heap2, 0)
    ensures ItemsPushed(heap, r, value.items, seen, d) && Within(value.items[|seen|], d)
            && Pushed(heap2, low, v, value.items[|seen|], item, d)
            ==> ItemsPushed(heap2[r := Assigned(heap2[r], Index(|seen| + 1), v)], r, value.items, seen + [item], d)
  {
    if ItemsPushed(heap, r, value.items, seen, d) && Within(value.items[|seen|], d)
       && Pushed(heap2, low, v, value.items[|seen|], item, d)
    {
      PushedIsNotNil(heap2, low, v, item);
      PushedStays(heap2, heap2, low, r + 1, v, value.items[|seen|], item, d);
      ItemStored(heap, heap2, r, value.items, seen, d, v, item);
    }
  }

  /** What has been stored is NUL-free and not too deep. */
  ghost predicate FieldsFit(seen: map<string, Json>, d: int) {
    forall c :: c in seen ==> NulFreeKey(c) && NulFree(seen[c]) && Within(seen[c], d)
  }

  /** The table holds it, key by key. */
  ghost predicate FieldsHeld(heap: Heap, r: nat, seen: map<string, Json>) {
    && r in heap && heap[r].Keys == StringKeys(seen)
    && forall c :: c in seen ==> Holds(heap, r + 1, Get(heap[r], String(c)), seen[c])
  }

  /** An object table under construction; `seen` is what it holds, `done` the keys already stored. */
  ghost predicate FieldsPushed(heap: Heap, r: nat, fields: map<string, Json>, done: set<string>,
                               seen: map<string, Json>, d: int)
  {
    && FieldsHeld(heap, r, seen) && FieldsFit(seen, d)
    && done <= fields.Keys && (forall k :: k in done ==> Within(fields[k], d))
    && CutFields(fields, done, seen)
  }

  /** `CutOf`, for the keys already stored. */
  ghost predicate CutFields(fields: map<string, Json>, done: set<string>, seen: map<string, Json>) {
    && (forall k :: k in done ==> Cut(k) in seen)
    && (forall c :: c in seen ==> CutFrom(Obj(fields), done, c, seen[c]))
  }

  lemma CutFromMore(value: Json, keys: set<string>, more: set<string>, c: string, seen: Json)
    requires value.Obj? && CutFrom(value, keys, c, seen) && keys <= more
    ensures CutFrom(value, more, c, seen)
  {
    var k :| k in keys && k in value.fields && Cut(k) == c && CutOf(value.fields[k], seen);
    assert k in more;
  }

  lemma CutFieldStored(fields: map<string, Json>, done: set<string>, seen: map<string, Json>, k: string, item: Json)
    requires CutFields(fields, done, seen) && k in fields && CutOf(fields[k], item)
    ensures CutFields(fields, done + {k}, seen[Cut(k) := item])
  {
    var seen2 := seen[Cut(k) := item];
    forall c | c in seen2 ensures CutFrom(Obj(fields), done + {k}, c, seen2[c]) {
      if c == Cut(k) {
        assert k in done + {k};
      } else {
        CutFromMore(Obj(fields), done, done + {k}, c, seen[c]);
      }
    }
  }

  lemma CutFieldsAll(fields: map<string, Json>, seen: map<string, Json>)
    requires CutFields(fields, fields.Keys, seen)
    ensures CutOf(Obj(fields), Obj(seen))
  {
  }

  lemma StoredKeys(t: Entries, seen: map<string, Json>, cut: string, v: Value, item: Json)
    requires t.Keys == StringKeys(seen)
    ensures t[String(cut) := v].Keys == (set c | c in seen[cut := item] :: String(c))
  {
  }

  /** Storing one field keeps what the others hold. */
  lemma FieldHeld(heap: Heap, heap2: Heap, r: nat, seen: map<string, Json>, cut: string, v: Value, item: Json)
    requires FieldsHeld(heap, r, seen) && Extends(heap, heap2, r) && Holds(heap2, r + 1, v, item)
    ensures r in heap2 && FieldsHeld(heap2[r := heap2[r][String(cut) := v]], r, seen[cut := item])
  {
    var heap3, seen2 := heap2[r := heap2[r][String(cut) := v]], seen[cut := item];
    StoredKeys(heap2[r], seen, cut, v, item);
    forall c | c in seen2 ensures Holds(heap3, r + 1, Get(heap3[r], String(c)), seen2[c]) {
      if c == cut {
        HoldsStays(heap2, heap3, r + 1, r + 1, v, item);
      } else {
        HoldsStays(heap, heap3, r + 1, r + 1, Get(heap[r], String(c)), seen[c]);
      }
    }
  }

  lemma FieldStored(heap: Heap, heap2: Heap, r: nat, fields: map<string, Json>, done: set<string>,
                    seen: map<string, Json>, d: int, k: string, v: Value, item: Json)
    requires FieldsPushed(heap, r, fields, done, seen, d) && k in fields && Extends(heap, heap2, r)
    requires Within(fields[k], d) && Pushed(heap2, r + 1, v, fields[k], item, d)
    ensures r in heap2
    ensures FieldsPushed(heap2[r := heap2[r][String(Cut(k)) := v]], r, fields, done + {k}, seen[Cut(k) := item], d)
  {
    FieldHeld(heap, heap2, r, seen, Cut(k), v, item);
    CutEndsAtNul(k);
    CutFieldStored(fields, done, seen, k, item);
  }

  /** The same, for a value pushed above `low` while the heap only grew. */
  lemma FieldKept(heap: Heap, heap2: Heap, low: nat, r: nat, value: Json, done: set<string>, seen: map<string, Json>,
                  d: int, k: string, v: Value, item: Json)
    requires value.Obj? && k in value.fields && r < low && r in heap2 && Extends(heap, heap2, 0)
    ensures FieldsPushed(heap, r, value.fields, done, seen, d) && Within(value.fields[k], d)
            && Pushed(heap2, low, v, value.fields[k], item, d)
            ==> FieldsPushed(heap2[r := Assigned(heap2[r], String(Cut(k)), v)], r, value.fields, done + {k},
                             seen[Cut(k) := item], d)
  {
    if FieldsPushed(heap, r, value.fields, done, seen, d) && Within(value.fields[k], d)
       && Pushed(heap2, low, v, value.fields[k], item, d)
    {
      PushedIsNotNil(heap2, low, v, item);
      PushedStays(heap2, heap2, low, r + 1, v, value.fields[k], item, d);
      FieldStored(heap, heap2, r, value.fields, done, seen, d, k, v, item);
    }
  }

  lemma FieldsNone(heap: Heap, r: nat, fields: map<string, Json>, d: int)
    requires r in heap && heap[r] == map[]
    ensures FieldsPushed(heap, r, fields, {}, map[], d)
  {
  }

  lemma FieldWithin(value: Json, k: string, d: int)
    requires value.Obj? && k in value.fields
    ensures Within(value, d) ==> Within(value.fields[k], d - 1)
  {
  }

  lemma ObjectHeld(heap: Heap, r: nat, seen: map<string, Json>)
    requires FieldsHeld(heap, r, seen)
    ensures Holds(heap, r, Table(r), Obj(seen))
  {
  }

  lemma ObjectFits(seen: map<string, Json>, d: int)
    requires d >= 0 && FieldsFit(seen, d - 1)
    ensures NulFree(Obj(seen)) && Within(Obj(seen), d)
  {
  }

  /** The table holds all of the value. */
  ghost predicate Filled(heap: Heap, r: nat, value: Json, seen: Json, d: int) {
    Within(value, d) && Pushed(heap, r, Table(r), value, seen, d)
  }

  /** With all fields stored the table holds the object. */
  lemma FieldsAll(heap: Heap, r: nat, value: Json, seen: map<string, Json>, d: int)
    requires value.Obj? && d >= 0
    ensures FieldsPushed(heap, r, value.fields, value.fields.Keys, seen, d - 1) ==> Filled(heap, r, value, Obj(seen), d)
  {
    if FieldsPushed(heap, r, value.fields, value.fields.Keys, seen, d - 1) {
      ObjectHeld(heap, r, seen);
      ObjectFits(seen, d);
      CutFieldsAll(value.fields, seen);
    }
  }

  /** With all items stored the table holds the array. */
  lemma ItemsAll(heap: Heap, r: nat, value: Json, seen: seq<Json>, d: int)
    requires value.Arr? && d >= 0 && ItemsPushed(heap, r, value.items, seen, d - 1) && |seen| == |value.items|
    ensures Within(value, d) && Pushed(heap, r, Table(r), value, Arr(seen), d)
  {
  }

  // ---------------------------------------------------------------- scanning keys

  /** What the scan knows: whether all keys are indices, and then the largest and where it stands. */
  ghost predicate Scanned(keys: seq<Value>, indices: bool, max: int, at: int) {
    && (indices <==> forall k :: 0 <= k < |keys| ==> IsIndex(keys[k]))
    && max >= 0 && (keys == [] ==> max == 0)
    && (indices ==> forall k :: 0 <= k < |keys| ==> keys[k].x <= max as real)
    && (indices && keys != [] ==> 0 <= at < |keys| && keys[at] == Index(max))
  }

  lemma ScanStep(keys: seq<Value>, key: Value, indices: bool, max: int, at: int)
    requires Scanned(keys, indices, max, at)
    ensures var still, n := indices && IsIndex(key), if key.Number? then key.x.Floor else 0;
            if still && n > max then Scanned(keys + [key], still, n, |keys|) else Scanned(keys + [key], still, max, at)
  {
    if IsIndex(key) {
      assert key == Index(key.x.Floor) && key.x.Floor >= 1;
    }
    assert (keys + [key])[|keys|] == key;
    assert forall k :: 0 <= k < |keys| ==> (keys + [key])[k] == keys[k];
  }

  /** The test after the scan recognises exactly the arrays. */
  lemma ScanResult(keys: seq<Value>, t: Entries, indices: bool, max: nat, at: int)
    requires Visits(keys, t) && Scanned(keys, indices, max, at)
    ensures indices && |keys| > 0 && max == |keys| <==> IsArray(t)
    ensures |keys| == |t|
  {
    VisitCount(keys, t);
    if IsArray(t) {
      ArrayKeys(keys, t);
    }
    if indices && |keys| > 0 && max == |keys| {
      IndicesAreFirst(t.Keys, max);
    }
  }

  /** The stack in a loop over a table, at the i-th key: key and value lie on top, and nothing once it is over. */
  ghost predicate InLoop(stack: seq<Value>, base: seq<Value>, keys: seq<Value>, t: Entries, i: nat) {
    i <= |keys| && stack == base + if i < |keys| then [keys[i], Get(t, keys[i])] else []
  }

  // ---------------------------------------------------------------- the Lua state

  /** What is visited below v at this depth is nested no deeper than n, be it by the limit. */
  ghost predicate Room(host: Host, heap: Heap, v: Value, depth: nat, n: int) {
    n == 64 - depth || Nested(host, heap, v, n)
  }

  lemma RoomBelow(host: Host, heap: Heap, v: Value, depth: nat, n: int, k: Value)
    requires depth <= 64 && v.Table? && v.ref in heap && k in heap[v.ref]
    ensures Room(host, heap, v, depth, n) ==> n >= 0
    ensures Room(host, heap, v, depth, n) && KeyText(host, k).Some? ==>
              Room(host, heap, Get(heap[v.ref], k), depth + 1, n - 1)
  {
  }

  lemma RoomIsSome(host: Host, heap: Heap, v: Value, depth: nat, n: int)
    requires depth <= 64
    ensures Room(host, heap, v, depth, n) ==> n >= 0
  {
  }

  ghost predicate HasIndices(t: Entries, length: nat) {
    forall i :: 1 <= i <= length ==> Index(i) in t
  }

  lemma ArrayHasIndices(t: Entries, length: nat)
    requires IsArray(t) && length == |t|
    ensures HasIndices(t, length)
  {
    forall i | 1 <= i <= length ensures Index(i) in t {
      assert Index(i) in FirstKeys(length);
    }
  }

  /** A value to be pushed at this depth is nested no deeper than n, as far as it is pushed. */
  predicate Fits(value: Json, depth: nat, n: int) {
    n == 64 - depth || Within(value, n)
  }

  lemma ItemFits(value: Json, depth: nat, n: int, i: nat)
    requires value.Arr? && i < |value.items|
    ensures Fits(value, depth, n) ==> Fits(value.items[i], depth + 1, n - 1)
  {
  }

  lemma FieldFits(value: Json, depth: nat, n: int, k: string)
    requires value.Obj? && k in value.fields
    ensures Fits(value, depth, n) ==> Fits(value.fields[k], depth + 1, n - 1)
  {
  }

  function Max(a: int, b: int): int {
    if a < b then b else a
  }

  /** `peak` is the greatest height the stack has had. */
  class Lua {
    var stack: seq<Value>
    var heap: Heap
    var next: nat
    ghost var peak: nat

    constructor ()
      ensures Valid() && stack == [] && heap == map[] && peak == 0
    {
      stack, heap, next, peak := [], map[], 0, 0;
    }

    ghost predicate Valid()
      reads this
    {
      forall r :: r in heap ==> r < next
    }

    method Push(v: Value)
      modifies this`stack, this`peak
      ensures stack == old(stack) + [v] && peak == Max(old(peak), |stack|)
    {
      stack := stack + [v];
      peak := Max(peak, |stack|);
    }

    method Pop(n: nat)
      requires n <= |stack|
      modifies this`stack
      ensures stack == old(stack)[..|old(stack)| - n]
    {
      stack := stack[..|stack| - n];
    }

    /** `lua_createtable`. */
    method CreateTable() returns (r: nat)
      requires Valid()
      modifies this
      ensures Valid() && r == old(next) < next && stack == old(stack) + [Table(r)]
      ensures r !in old(heap) && heap == old(heap)[r := map[]]
      ensures peak == Max(old(peak), |stack|)
    {
      r := next;
      heap, next := heap[r := map[]], next + 1;
      Push(Table(r));
    }

    /** `lua_rawseti` and `lua_setfield` on the table below the top: the top value is stored and popped. */
    method StoreBelow(r: nat, k: Value)
      requires Valid() && |stack| >= 2 && stack[|stack| - 2] == Table(r) && r in heap
      modifies this`stack, this`heap
      ensures Valid() && stack == old(stack)[..|old(stack)| - 1]
      ensures heap == old(heap)[r := Assigned(old(heap)[r], k, old(stack)[|old(stack)| - 1])]
    {
      heap := heap[r := Assigned(heap[r], k, stack[|stack| - 1])];
      Pop(1);
    }

    /**
      `push_json_as_lua`.  A value nested no deeper than n takes at most n slots beyond the one of
      the result while it is pushed, and whatever is pushed at most 65 in all.
     */
    method PushJson(value: Json, depth: nat, ghost n: int) returns (threw: bool, ghost seen: Json)
      requires Valid()
      modifies this
      ensures Valid() && next >= old(next) && Extends(old(heap), heap, 0) && old(stack) <= stack
      ensures threw <==> !Within(value, 64 - depth)
      ensures !threw ==> |stack| == |old(stack)| + 1
      ensures !threw ==> Pushed(heap, old(next), stack[|old(stack)|], value, seen, 64 - depth)
      ensures old(peak) <= peak && (Fits(value, depth, n) ==> peak <= Max(old(peak), |old(stack)| + 1 + n))
      decreases value, 4
    {
      if depth > 64 {
        return true, value;
      }
      threw, seen := false, value;
      match value
      case Null => Push(Light(0));
      case Bool(b) => Push(Boolean(b));
      case Num(n) => Push(Number(n));
      case Str(s) => Push(String(s));
      case Arr(_) => threw, seen := PushArray(value, depth, n);
      case Obj(_) => threw, seen := PushObject(value, depth, n);
    }

    method PushArray(value: Json, depth: nat, ghost n: int) returns (threw: bool, ghost seen: Json)
      requires Valid() && value.Arr? && depth <= 64
      modifies this
      ensures Valid() && next >= old(next) && Extends(old(heap), heap, 0) && old(stack) <= stack
      ensures threw <==> !Within(value, 64 - depth)
      ensures !threw ==> |stack| == |old(stack)| + 1
      ensures !threw ==> Pushed(heap, old(next), stack[|old(stack)|], value, seen, 64 - depth)
      ensures old(peak) <= peak && (Fits(value, depth, n) ==> peak <= Max(old(peak), |old(stack)| + 1 + n))
      decreases value, 2
    {
      var r := CreateTable();
      threw, seen := PushItems(value, depth, r, n);
    }

    /** All items, into the empty table on top. */
    method PushItems(value: Json, depth: nat, r: nat, ghost n: int) returns (threw: bool, ghost seen: Json)
      requires Valid() && value.Arr? && depth <= 64 && r < next
      requires |stack| > 0 && stack[|stack| - 1] == Table(r) && r in heap && heap[r] == map[]
      modifies this
      ensures Valid() && next >= old(next) && old(stack) <= stack
      ensures forall ref :: ref in old(heap) && ref != r ==> ref in heap && heap[ref] == old(heap)[ref]
      ensures threw <==> !Within(value, 64 - depth)
      ensures !threw ==> stack == old(stack) && Pushed(heap, r, Table(r), value, seen, 64 - depth)
      ensures old(peak) <= peak && (Fits(value, depth, n) ==> peak <= Max(old(peak), |old(stack)| + n))
      decreases value, 1
    {
      ghost var items := [];
      seen := value;
      assert FirstKeys(0) == {};
      var i := 0;
      while i < |value.items|
        invariant Valid() && i == |items| <= |value.items| && r < next && old(next) <= next
        invariant stack == old(stack)
        invariant forall ref :: ref in old(heap) && ref != r ==> ref in heap && heap[ref] == old(heap)[ref]
        invariant ItemsPushed(heap, r, value.items, items, 64 - depth - 1)
        invariant old(peak) <= peak && (Fits(value, depth, n) ==> peak <= Max(old(peak), |old(stack)| + n))
      {
        threw, items := PushItem(value, depth, r, i, items, n);
        if threw {
          return;
        }
        i := i + 1;
      }
      ItemsAll(heap, r, value, items, 64 - depth);
      seen := Arr(items);
      threw := false;
    }

    /** One element: pushed, and stored in the table below it. */
    method PushItem(value: Json, depth: nat, r: nat, i: nat, ghost items: seq<Json>, ghost n: int)
      returns (threw: bool, ghost more: seq<Json>)
      requires Valid() && value.Arr? && depth <= 64 && i == |items| < |value.items| && r < next
      requires |stack| > 0 && stack[|stack| - 1] == Table(r)
      requires ItemsPushed(heap, r, value.items, items, 64 - depth - 1)
      modifies this
      ensures Valid() && next >= old(next) && old(stack) <= stack
      ensures forall ref :: ref in old(heap) && ref != r ==> ref in heap && heap[ref] == old(heap)[ref]
      ensures threw <==> !Within(value.items[i], 64 - depth - 1)
      ensures !threw ==> stack == old(stack) && |more| == i + 1
      ensures !threw ==> ItemsPushed(heap, r, value.items, more, 64 - depth - 1)
      ensures old(peak) <= peak && (Fits(value, depth, n) ==> peak <= Max(old(peak), |old(stack)| + n))
      decreases value, 0
    {
      ghost var before, low, d, item := heap, next, 64 - depth - 1, Null;
      ItemFits(value, depth, n, i);
      threw, item := PushJson(value.items[i], depth + 1, n - 1);
      more := items + [item];
      if !threw {
        ghost var v := stack[|stack| - 1];
        ItemKept(before, heap, low, r, value, items, d, v, item);
        StoreBelow(r, Index(i + 1));
      }
    }

    method PushObject(value: Json, depth: nat, ghost n: int) returns (threw: bool, ghost seen: Json)
      requires Valid() && value.Obj? && depth <= 64
      modifies this
      ensures Valid() && next >= old(next) && Extends(old(heap), heap, 0) && old(stack) <= stack
      ensures threw <==> !Within(value, 64 - depth)
      ensures !threw ==> |stack| == |old(stack)| + 1
      ensures !threw ==> Pushed(heap, old(next), stack[|old(stack)|], value, seen, 64 - depth)
      ensures old(peak) <= peak && (Fits(value, depth, n) ==> peak <= Max(old(peak), |old(stack)| + 1 + n))
      decreases value, 3
    {
      var r := CreateTable();
      threw, seen := PushFields(value, depth, r, n);
    }

    /** All fields, into the empty table on top. */
    method PushFields(value: Json, depth: nat, r: nat, ghost n: int) returns (threw: bool, ghost seen: Json)
      requires Valid() && value.Obj? && depth <= 64 && r < next
      requires |stack| > 0 && stack[|stack| - 1] == Table(r) && r in heap && heap[r] == map[]
      modifies this
      ensures Valid() && next >= old(next) && old(stack) <= stack
      ensures forall ref :: ref in old(heap) && ref != r ==> ref in heap && heap[ref] == old(heap)[ref]
      ensures threw ==> !Within(value, 64 - depth)
      ensures !threw ==> stack == old(stack) && Filled(heap, r, value, seen, 64 - depth)
      ensures old(peak) <= peak && (Fits(value, depth, n) ==> peak <= Max(old(peak), |old(stack)| + n))
      decreases value, 2
    {
      ghost var fields;
      threw, fields := PushEach(value, depth, r, n);
      seen := Obj(fields);
      if !threw {
        FieldsAll(heap, r, value, fields, 64 - depth);
      }
    }

    /** The loop over the fields. */
    method PushEach(value: Json, depth: nat, r: nat, ghost n: int) returns (threw: bool, ghost fields: map<string, Json>)
      requires Valid() && value.Obj? && depth <= 64 && r < next
      requires |stack| > 0 && stack[|stack| - 1] == Table(r) && r in heap && heap[r] == map[]
      modifies this
      ensures Valid() && next >= old(next) && old(stack) <= stack
      ensures forall ref :: ref in old(heap) && ref != r ==> ref in heap && heap[ref] == old(heap)[ref]
      ensures threw ==> !Within(value, 64 - depth)
      ensures !threw ==> stack == old(stack)
      ensures !threw ==> FieldsPushed(heap, r, value.fields, value.fields.Keys, fields, 64 - depth - 1)
      ensures old(peak) <= peak && (Fits(value, depth, n) ==> peak <= Max(old(peak), |old(stack)| + n))
      decreases value, 1
    {
      fields := map[];
      FieldsNone(heap, r, value.fields, 64 - depth - 1);
      var left := value.fields.Keys;
      ghost var done: set<string> := {};
      while left != {}
        invariant Valid() && r < next && old(next) <= next && left <= value.fields.Keys && done == value.fields.Keys - left
        invariant stack == old(stack)
        invariant forall ref :: ref in old(heap) && ref != r ==> ref in heap && heap[ref] == old(heap)[ref]
        invariant FieldsPushed(heap, r, value.fields, done, fields, 64 - depth - 1)
        invariant old(peak) <= peak && (Fits(value, depth, n) ==> peak <= Max(old(peak), |old(stack)| + n))
        decreases left
      {
        var k :| k in left;
        FieldWithin(value, k, 64 - depth);
        threw, fields := PushField(value, depth, r, k, done, fields, n);
        if threw {
          return;
        }
        left, done := left - {k}, done + {k};
      }
      assert done == value.fields.Keys;
      threw := false;
    }

    /** One field: pushed, and stored in the table below it. */
    method PushField(value: Json, depth: nat, r: nat, k: string, ghost done: set<string>, ghost fields: map<string, Json>,
                     ghost n: int)
      returns (threw: bool, ghost more: map<string, Json>)
      requires Valid() && value.Obj? && depth <= 64 && k in value.fields && r < next
      requires |stack| > 0 && stack[|stack| - 1] == Table(r)
      requires FieldsPushed(heap, r, value.fields, done, fields, 64 - depth - 1)
      modifies this
      ensures Valid() && next >= old(next) && old(stack) <= stack
      ensures forall ref :: ref in old(heap) && ref != r ==> ref in heap && heap[ref] == old(heap)[ref]
      ensures threw <==> !Within(value.fields[k], 64 - depth - 1)
      ensures !threw ==> stack == old(stack)
      ensures !threw ==> FieldsPushed(heap, r, value.fields, done + {k}, more, 64 - depth - 1)
      ensures old(peak) <= peak && (Fits(value, depth, n) ==> peak <= Max(old(peak), |old(stack)| + n))
      decreases value, 0
    {
      ghost var before, low, item := heap, next, Null;
      FieldFits(value, depth, n, k);
      threw, item := PushJson(value.fields[k], depth + 1, n - 1);
      more := fields[Cut(k) := item];
      if !threw {
        StoreField(value, r, k, before, low, done, fields, 64 - depth - 1, item);
      }
    }

    /** The value just pushed becomes the field: `lua_setfield`. */
    method StoreField(value: Json, r: nat, k: string, ghost before: Heap, ghost low: nat, ghost done: set<string>,
                      ghost fields: map<string, Json>, ghost d: int, ghost item: Json)
      requires Valid() && value.Obj? && k in value.fields && r < low && r in heap && Extends(before, heap, 0)
      requires |stack| >= 2 && stack[|stack| - 2] == Table(r)
      requires FieldsPushed(before, r, value.fields, done, fields, d) && Within(value.fields[k], d)
      requires Pushed(heap, low, stack[|stack| - 1], value.fields[k], item, d)
      modifies this`stack, this`heap
      ensures Valid() && stack == old(stack)[..|old(stack)| - 1]
      ensures forall ref :: ref in old(heap) && ref != r ==> ref in heap && heap[ref] == old(heap)[ref]
      ensures FieldsPushed(heap, r, value.fields, done + {k}, fields[Cut(k) := item], d)
    {
      FieldKept(before, heap, low, r, value, done, fields, d, k, stack[|stack| - 1], item);
      StoreBelow(r, String(Cut(k)));
    }

    /** `lua_next` on the table at idx, its key on top being the one before position `cursor`. */
    method Next(host: Host, idx: nat, cursor: nat) returns (more: bool)
      requires idx + 1 < |stack| && stack[idx].Table? && stack[idx].ref in heap
      requires Visits(host.order(stack[idx].ref), heap[stack[idx].ref]) && cursor <= |host.order(stack[idx].ref)|
      requires stack[|stack| - 1] == if cursor == 0 then Nil else host.order(stack[idx].ref)[cursor - 1]
      modifies this`stack, this`peak
      ensures more <==> cursor < |host.order(old(stack)[idx].ref)|
      ensures old(peak) <= peak <= Max(old(peak), |old(stack)| + 1)
      ensures var keys, t := host.order(old(stack)[idx].ref), heap[old(stack)[idx].ref];
              stack == old(stack)[..|old(stack)| - 1] + if more then [keys[cursor], t[keys[cursor]]] else []
    {
      var keys, t := host.order(stack[idx].ref), heap[stack[idx].ref];
      Pop(1);
      more := cursor < |keys|;
      if more {
        assert keys[cursor] in t.Keys;
        Push(keys[cursor]);
        Push(t[keys[cursor]]);
      }
    }

    /** A loop over the table at idx begins: nil is pushed as the key before the first. */
    method First(host: Host, idx: nat) returns (more: bool)
      requires idx < |stack| && stack[idx].Table? && stack[idx].ref in heap && Faithful(host, heap)
      modifies this`stack, this`peak
      ensures more <==> |host.order(old(stack)[idx].ref)| > 0
      ensures old(peak) <= peak <= Max(old(peak), |old(stack)| + 2)
      ensures InLoop(stack, old(stack), host.order(old(stack)[idx].ref), heap[old(stack)[idx].ref], 0)
    {
      Push(Nil);
      more := Next(host, idx, 0);
    }

    /** The loop goes on: the value is popped, and lua_next takes the key. */
    method Advance(host: Host, idx: nat, i: nat, ghost base: seq<Value>)
      returns (more: bool)
      requires idx < |base| && base[idx].Table? && base[idx].ref in heap && Faithful(host, heap)
      requires i < |host.order(base[idx].ref)| && InLoop(stack, base, host.order(base[idx].ref), heap[base[idx].ref], i)
      modifies this`stack, this`peak
      ensures more <==> i + 1 < |host.order(base[idx].ref)|
      ensures old(peak) <= peak <= Max(old(peak), |base| + 2)
      ensures InLoop(stack, base, host.order(base[idx].ref), heap[base[idx].ref], i + 1)
    {
      Pop(1);
      assert stack == base + [host.order(base[idx].ref)[i]] && stack[..|stack| - 1] == base;
      more := Next(host, idx, i + 1);
    }

    /** The first loop of `lua_table_to_json`: is this table an array, and of what length? */
    method ScanKeys(host: Host, idx: nat) returns (isArray: bool, length: nat)
      requires idx < |stack| && stack[idx].Table? && stack[idx].ref in heap && Faithful(host, heap)
      modifies this`stack, this`peak
      ensures stack == old(stack)
      ensures isArray <==> IsArray(heap[stack[idx].ref])
      ensures isArray ==> length == |heap[stack[idx].ref]|
      ensures old(peak) <= peak <= Max(old(peak), |old(stack)| + 2)
    {
      ghost var t, keys := heap[stack[idx].ref], host.order(stack[idx].ref);
      var max, count := 0, 0;
      isArray := true;
      ghost var at := 0;
      var more := First(host, idx);
      while more
        invariant (more <==> count < |keys|) && InLoop(stack, old(stack), keys, t, count)
        invariant Scanned(keys[..count], isArray, max, at)
        invariant old(peak) <= peak <= Max(old(peak), |old(stack)| + 2)
        decreases |keys| - count
      {
        var key := stack[|stack| - 2];
        ScanStep(keys[..count], key, isArray, max, at);
        assert keys[..count] + [key] == keys[..count + 1];
        if isArray {
          if IsIndex(key) {
            if key.x.Floor > max {
              max, at := key.x.Floor, count;
            }
          } else {
            isArray := false;
          }
        }
        more := Advance(host, idx, count, old(stack));
        count := count + 1;
      }
      assert keys[..count] == keys;
      ScanResult(keys, t, isArray, max, at);
      length := max;
      isArray := isArray && count > 0 && max == count;
    }

    /**
      `lua_value_to_json`, of the stack slot idx.  Beyond what lay on the stack it takes at most
      three slots and two more for each level that what it visits is nested, never more than 131.
     */
    method ValueToJson(host: Host, idx: nat, depth: nat, ghost n: int) returns (r: Result<Option<Json>, Failure>)
      requires idx < |stack| && Faithful(host, heap)
      modifies this`stack, this`peak
      ensures r == ToJson(host, heap, old(stack)[idx], depth)
      ensures Room(host, heap, old(stack)[idx], depth, n) ==> peak <= Max(old(peak), |old(stack)| + 2 * n + 3)
      ensures old(peak) <= peak
      ensures old(stack) <= stack && (r.Ok? ==> stack == old(stack))
      decreases if depth > 64 then 0 else 65 - depth, 4
    {
      if depth > 64 {
        return Err(TooDeep);
      }
      var v := stack[idx];
      match v
      case Nil => r := Ok(Some(Null));
      case Boolean(b) => r := Ok(Some(Bool(b)));
      case Number(x) => r := Ok(Some(Num(x)));
      case String(text) => r := Ok(Some(Str(text)));
      case Light(address) => r := Ok(if address == 0 then Some(Null) else None);
      case Other(_) => r := Ok(None);
      case Table(ref) =>
        if ref !in heap {
          return Ok(None);
        }
        var isArray, length := ScanKeys(host, idx);
        if isArray {
          ArrayHasIndices(heap[ref], length);
          r := ReadArray(host, idx, length, depth, n);
        } else {
          r := ReadObject(host, idx, depth, n);
        }
    }

    method ReadArray(host: Host, idx: nat, length: nat, depth: nat, ghost n: int) returns (r: Result<Option<Json>, Failure>)
      requires idx < |stack| && stack[idx].Table? && stack[idx].ref in heap && Faithful(host, heap) && depth <= 64
      requires HasIndices(heap[stack[idx].ref], length)
      modifies this`stack, this`peak
      ensures var items := Items(host, heap, heap[old(stack)[idx].ref], length, depth);
              r == if items.Ok? then Ok(Some(Arr(items.value))) else Err(TooDeep)
      ensures Room(host, heap, old(stack)[idx], depth, n) ==> peak <= Max(old(peak), |old(stack)| + 2 * n + 3)
      ensures old(peak) <= peak
      ensures old(stack) <= stack && (r.Ok? ==> stack == old(stack))
      decreases 65 - depth, 2
    {
      ghost var t, room := heap[stack[idx].ref], Room(host, heap, stack[idx], depth, n);
      var items, i := [], 0;
      while i < length
        invariant 0 <= i <= length && stack == old(stack)
        invariant Items(host, heap, t, i, depth) == Ok(items)
        invariant old(peak) <= peak && (room ==> peak <= Max(old(peak), |old(stack)| + 2 * n + 3))
      {
        var v := ReadItem(host, idx, Index(i + 1), depth, n);
        if v.Err? {
          ItemsFail(host, heap, t, length, depth, i + 1);
          return Err(TooDeep);
        }
        items := items + [if v.value.Some? then v.value.value else Null];
        i := i + 1;
      }
      r := Ok(Some(Arr(items)));
    }

    /** One element of an array: pushed, converted and popped. */
    method ReadItem(host: Host, idx: nat, k: Value, depth: nat, ghost n: int) returns (v: Result<Option<Json>, Failure>)
      requires idx < |stack| && stack[idx].Table? && stack[idx].ref in heap && Faithful(host, heap) && depth <= 64
      requires k.Number? && k in heap[stack[idx].ref]
      modifies this`stack, this`peak
      ensures v == ToJson(host, heap, Get(heap[old(stack)[idx].ref], k), depth + 1)
      ensures old(stack) <= stack && (v.Ok? ==> stack == old(stack))
      ensures old(peak) <= peak
      ensures Room(host, heap, old(stack)[idx], depth, n) ==> peak <= Max(old(peak), |old(stack)| + 2 * n + 3)
      decreases 65 - depth, 1
    {
      RoomBelow(host, heap, stack[idx], depth, n, k);
      Push(Get(heap[stack[idx].ref], k));
      v := ValueToJson(host, |stack| - 1, depth + 1, n - 1);
      if v.Ok? {
        Pop(1);
      }
    }

    method ReadObject(host: Host, idx: nat, depth: nat, ghost n: int) returns (r: Result<Option<Json>, Failure>)
      requires idx < |stack| && stack[idx].Table? && stack[idx].ref in heap && Faithful(host, heap) && depth <= 64
      modifies this`stack, this`peak
      ensures var fields := Fields(host, heap, heap[old(stack)[idx].ref], host.order(old(stack)[idx].ref), depth);
              r == if fields.Ok? then Ok(Some(Obj(fields.value))) else Err(TooDeep)
      ensures Room(host, heap, old(stack)[idx], depth, n) ==> peak <= Max(old(peak), |old(stack)| + 2 * n + 3)
      ensures old(peak) <= peak
      ensures old(stack) <= stack && (r.Ok? ==> stack == old(stack))
      decreases 65 - depth, 3
    {
      ghost var t, keys := heap[stack[idx].ref], host.order(stack[idx].ref);
      var fields: map<string, Json>, i := map[], 0;
      var more := First(host, idx);
      RoomIsSome(host, heap, old(stack)[idx], depth, n);
      while more
        invariant (more <==> i < |keys|) && InLoop(stack, old(stack), keys, t, i)
        invariant Fields(host, heap, t, keys[..i], depth) == Ok(fields)
        invariant old(peak) <= peak
        invariant Room(host, heap, old(stack)[idx], depth, n) ==> peak <= Max(old(peak), |old(stack)| + 2 * n + 3)
        decreases |keys| - i
      {
        var ok;
        ok, fields := ReadEntry(host, depth, fields, n, old(stack)[idx], i, old(stack));
        if !ok {
          return Err(TooDeep);
        }
        more := Advance(host, idx, i, old(stack));
        i := i + 1;
      }
      assert keys[..i] == keys;
      r := Ok(Some(Obj(fields)));
    }

    /** One turn of the loop over the entries of `table`: the i-th is added, or nothing can be. */
    method ReadEntry(host: Host, depth: nat, fields: map<string, Json>, ghost n: int, ghost table: Value, ghost i: nat,
                     ghost base: seq<Value>)
      returns (ok: bool, more: map<string, Json>)
      requires Faithful(host, heap) && depth <= 64 && table.Table? && table.ref in heap
      requires i < |host.order(table.ref)| && InLoop(stack, base, host.order(table.ref), heap[table.ref], i)
      requires Fields(host, heap, heap[table.ref], host.order(table.ref)[..i], depth) == Ok(fields)
      modifies this`stack, this`peak
      ensures old(stack) <= stack && (ok ==> stack == old(stack))
      ensures ok ==> Fields(host, heap, heap[table.ref], host.order(table.ref)[..i + 1], depth) == Ok(more)
      ensures !ok ==> Fields(host, heap, heap[table.ref], host.order(table.ref), depth) == Err(TooDeep)
      ensures old(peak) <= peak
      ensures Room(host, heap, table, depth, n) ==> peak <= Max(old(peak), |base| + 2 * n + 3)
      decreases 65 - depth, 2
    {
      ghost var t, keys := heap[table.ref], host.order(table.ref);
      assert keys[..i + 1] == keys[..i] + [keys[i]] && keys[i] in t.Keys;
      FieldsStep(host, heap, t, keys[..i], keys[i], depth);
      var entry := ReadField(host, depth, n, table);
      match entry
      case Err(_) =>
        FieldsFail(host, heap, t, keys, depth, i);
        ok, more := false, fields;
      case Ok(e) =>
        ok, more := true, if e.Some? then fields[e.value.0 := e.value.1] else fields;
    }

    /** The entry whose key and value are on top: its JSON key and value, if it has both. */
    method ReadField(host: Host, depth: nat, ghost n: int, ghost table: Value)
      returns (entry: Result<Option<(string, Json)>, Failure>)
      requires |stack| >= 2 && Faithful(host, heap) && depth <= 64
      requires table.Table? && table.ref in heap && stack[|stack| - 2] in heap[table.ref]
      requires stack[|stack| - 1] == Get(heap[table.ref], stack[|stack| - 2])
      modifies this`stack, this`peak
      ensures var k, v := old(stack)[|old(stack)| - 2], ToJson(host, heap, old(stack)[|old(stack)| - 1], depth + 1);
              entry == if KeyText(host, k).None? then Ok(None)
                       else if v.Err? then Err(TooDeep)
                       else if v.value.None? then Ok(None)
                       else Ok(Some((KeyText(host, k).value, v.value.value)))
      ensures old(peak) <= peak
      ensures Room(host, heap, table, depth, n) ==> peak <= Max(old(peak), |old(stack)| + 2 * n + 1)
      ensures old(stack) <= stack && (entry.Ok? ==> stack == old(stack))
      decreases 65 - depth, 1
    {
      var top := |stack| - 1;
      RoomBelow(host, heap, table, depth, n, stack[top - 1]);
      var key, text := stack[top - 1], "";
      if key.String? {
        text := key.s;
      } else if key.Number? {
        Push(key);
        text := host.text(stack[|stack| - 1].x);
        Pop(1);
      } else {
        return Ok(None);
      }
      var v := ValueToJson(host, top, depth + 1, n - 1);
      match v
      case Err(_) => entry := Err(TooDeep);
      case Ok(j) => entry := Ok(if j.Some? then Some((text, j.value)) else None);
    }
  }

  // ---------------------------------------------------------------- there and back

  /** Under cut keys a value is the same value exactly when none of its keys has a NUL. */
  lemma SeenIsValueIff(value: Json, seen: Json)
    requires CutOf(value, seen) && NulFree(seen)
    ensures Norm(seen) == Norm(value) <==> NulFree(value)
  {
    NormKeepsKeys(value);
    NormKeepsKeys(seen);
    if NulFree(value) {
      CutOfNulFree(value, seen);
    }
  }

  /**
    A JSON value pushed with nothing nested deeper than 64, then read back: the value under cut
    keys with empty arrays as empty objects, which is the value itself, so normalised, exactly
    when no key contains a NUL.
   */
  lemma RoundTrip(host: Host, heap: Heap, lo: nat, v: Value, value: Json, seen: Json)
    requires Faithful(host, heap) && Pushed(heap, lo, v, value, seen, 64)
    ensures ToJson(host, heap, v, 0) == Ok(Some(Norm(seen))) && CutOf(value, seen)
    ensures ToJson(host, heap, v, 0) == Ok(Some(Norm(value))) <==> NulFree(value)
  {
    ReadsBack(host, heap, lo, v, seen, 0);
    SeenIsValueIff(value, seen);
  }

  lemma CutExample(seen: Json)
    requires CutOf(Obj(map["a\0b" := Null]), seen)
    ensures seen == Obj(map["a" := Null])
  {
    var k, value := "a\0b", Obj(map["a\0b" := Null]);
    assert k[1..] == "\0b" && k[1] == '\0';
    assert Cut(k) == "a" && k in value.fields;
    forall c | c in seen.fields ensures c == "a" && seen.fields[c] == Null {
      assert CutFrom(value, value.fields.Keys, c, seen.fields[c]);
    }
    assert seen.fields == map["a" := Null];
  }

  /** The key "a", NUL, "b" is such a key: pushed and read back it is "a". */
  lemma NulKeyIsCut(host: Host, heap: Heap, lo: nat, v: Value, seen: Json)
    requires Faithful(host, heap) && Pushed(heap, lo, v, Obj(map["a\0b" := Null]), seen, 64)
    ensures ToJson(host, heap, v, 0) == Ok(Some(Obj(map["a" := Null])))
  {
    CutExample(seen);
    ReadsBack(host, heap, lo, v, seen, 0);
    NormExample();
  }

  lemma NormExample()
    ensures Norm(Obj(map["a" := Null])) == Obj(map["a" := Null])
  {
    assert Norm(Obj(map["a" := Null])).fields == map["a" := Null];
  }
}
