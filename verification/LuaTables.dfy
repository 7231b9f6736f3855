/**
  What becomes of any Lua table on its way to JSON (src/lua_host/main.cc), pushed there by the host
  or built by a plugin: entry by entry, and when the conversion gives up.
 */
module LuaTables {
  import opened Wrappers
  import opened JsonValue
  import opened LuaJson

  /** The value under key k, converted one level down. */
  function Inner(host: Host, heap: Heap, t: Entries, k: Value, depth: nat): Result<Option<Json>, Failure> {
    ToJson(host, heap, Get(t, k), depth + 1)
  }

  /** What is not a table: nil and the null sentinel are null, and functions and other pointers have no JSON. */
  lemma PlainConverts(host: Host, heap: Heap, v: Value, depth: nat)
    requires depth <= 64 && !v.Table?
    ensures var r := ToJson(host, heap, v, depth);
            && (v.Nil? || v == Light(0) ==> r == Ok(Some(Null)))
            && (v.Boolean? ==> r == Ok(Some(Bool(v.b))))
            && (v.Number? ==> r == Ok(Some(Num(v.x))))
            && (v.String? ==> r == Ok(Some(Str(v.s))))
            && (v.Other? || (v.Light? && v.address != 0) ==> r == Ok(None))
  {
  }

  lemma TableIsConverted(host: Host, heap: Heap, ref: nat, depth: nat)
    requires ref in heap && depth <= 64
    ensures ToJson(host, heap, Table(ref), depth) == TableToJson(host, heap, ref, depth)
  {
  }

  // ---------------------------------------------------------------- arrays, item by item

  /** An item of the array: the converted entry, or null for what JSON cannot express. */
  predicate IsItem(converted: Result<Option<Json>, Failure>, item: Json) {
    converted == Ok(Some(item)) || (converted == Ok(None) && item == Null)
  }

  ghost predicate SomeItemFails(host: Host, heap: Heap, t: Entries, n: nat, depth: nat) {
    exists i: nat :: 1 <= i <= n && Inner(host, heap, t, Index(i), depth).Err?
  }

  lemma {:induction false} ItemsAre(host: Host, heap: Heap, t: Entries, n: nat, depth: nat)
    requires depth <= 64
    ensures match Items(host, heap, t, n, depth)
            case Ok(items) =>
              && |items| == n && !SomeItemFails(host, heap, t, n, depth)
              && forall i :: 0 <= i < n ==> IsItem(Inner(host, heap, t, Index(i + 1), depth), items[i])
            case Err(_) => SomeItemFails(host, heap, t, n, depth)
    decreases n
  {
    if n > 0 {
      ItemsAre(host, heap, t, n - 1, depth);
    }
  }

  /** A table with the keys 1..n becomes the array of its entries in order. */
  lemma ArrayConverts(host: Host, heap: Heap, ref: nat, n: nat, depth: nat)
    requires ref in heap && depth <= 64 && n > 0 && heap[ref].Keys == FirstKeys(n)
    ensures match ToJson(host, heap, Table(ref), depth)
            case Ok(Some(j)) =>
              && j.Arr? && |j.items| == n
              && forall i :: 0 <= i < n ==> IsItem(Inner(host, heap, heap[ref], Index(i + 1), depth), j.items[i])
            case Ok(None) => false
            case Err(_) => SomeItemFails(host, heap, heap[ref], n, depth)
  {
    FirstKeysCount(n);
    assert |heap[ref]| == |heap[ref].Keys|;
    TableIsConverted(host, heap, ref, depth);
    ItemsAre(host, heap, heap[ref], n, depth);
  }

  // ---------------------------------------------------------------- objects, key by key

  /** A table key that reads as `c`: a string as itself, a number as its text, and no other key. */
  predicate ReadsAs(host: Host, k: Value, c: string) {
    (k.String? && k.s == c) || (k.Number? && host.text(k.x) == c)
  }

  /** The entry under k gives the object an entry under c. */
  predicate Gives(host: Host, heap: Heap, t: Entries, k: Value, c: string, depth: nat) {
    ReadsAs(host, k, c) && Inner(host, heap, t, k, depth).Ok? && Inner(host, heap, t, k, depth).value.Some?
  }

  ghost predicate SomeGives(host: Host, heap: Heap, t: Entries, keys: seq<Value>, c: string, depth: nat) {
    exists i :: 0 <= i < |keys| && Gives(host, heap, t, keys[i], c, depth)
  }

  lemma KeyTextIff(host: Host, k: Value, c: string)
    ensures ReadsAs(host, k, c) <==> KeyText(host, k) == Some(c)
  {
  }

  /** The object has an entry c exactly when some key that reads as c has a value JSON can express. */
  lemma {:induction false} FieldsAre(host: Host, heap: Heap, t: Entries, keys: seq<Value>, c: string, depth: nat)
    requires depth <= 64 && Fields(host, heap, t, keys, depth).Ok?
    ensures c in Fields(host, heap, t, keys, depth).value <==> SomeGives(host, heap, t, keys, c, depth)
    decreases |keys|
  {
    if keys != [] {
      var n := |keys| - 1;
      var k, init := keys[n], keys[..n];
      FieldsAre(host, heap, t, init, c, depth);
      KeyTextIff(host, k, c);
      if SomeGives(host, heap, t, init, c, depth) {
        var i :| 0 <= i < n && Gives(host, heap, t, init[i], c, depth);
        assert keys[i] == init[i];
      }
      forall i | 0 <= i < n && Gives(host, heap, t, keys[i], c, depth) ensures SomeGives(host, heap, t, init, c, depth) {
        assert init[i] == keys[i];
      }
    }
  }

  /** Of several such keys the one visited last wins. */
  lemma {:induction false} LastGivenWins(host: Host, heap: Heap, t: Entries, keys: seq<Value>, c: string, depth: nat, i: nat)
    requires depth <= 64 && Fields(host, heap, t, keys, depth).Ok?
    requires i < |keys| && Gives(host, heap, t, keys[i], c, depth)
    requires forall j :: i < j < |keys| ==> !Gives(host, heap, t, keys[j], c, depth)
    ensures var fields := Fields(host, heap, t, keys, depth).value;
            c in fields && Some(fields[c]) == Inner(host, heap, t, keys[i], depth).value
    decreases |keys|
  {
    var n := |keys| - 1;
    KeyTextIff(host, keys[n], c);
    if i < n {
      assert keys[..n][i] == keys[i];
      LastGivenWins(host, heap, t, keys[..n], c, depth, i);
    }
  }

  /** Any other table becomes the object of its entries under the texts of its keys. */
  lemma ObjectConverts(host: Host, heap: Heap, ref: nat, c: string, depth: nat)
    requires ref in heap && depth <= 64 && Visits(host.order(ref), heap[ref])
    requires forall n: nat :: n > 0 ==> heap[ref].Keys != FirstKeys(n)
    ensures match ToJson(host, heap, Table(ref), depth)
            case Ok(Some(j)) =>
              && j.Obj?
              && (c in j.fields <==> exists k :: k in heap[ref] && Gives(host, heap, heap[ref], k, c, depth))
              && (forall i :: 0 <= i < |host.order(ref)| && IsLast(host, heap, heap[ref], host.order(ref), c, depth, i) ==>
                    c in j.fields && Some(j.fields[c]) == Inner(host, heap, heap[ref], host.order(ref)[i], depth).value)
            case Ok(None) => false
            case Err(_) => true
  {
    var t, keys := heap[ref], host.order(ref);
    assert !IsArray(t);
    TableIsConverted(host, heap, ref, depth);
    if Fields(host, heap, t, keys, depth).Ok? {
      FieldsAre(host, heap, t, keys, c, depth);
      forall k | k in t && Gives(host, heap, t, k, c, depth) ensures SomeGives(host, heap, t, keys, c, depth) {
        assert k in keys;
      }
      forall i | 0 <= i < |keys| && IsLast(host, heap, t, keys, c, depth, i)
        ensures var fields := Fields(host, heap, t, keys, depth).value;
                c in fields && Some(fields[c]) == Inner(host, heap, t, keys[i], depth).value
      {
        LastGivenWins(host, heap, t, keys, c, depth, i);
      }
    }
  }

  /** The last key visited that gives an entry under c. */
  ghost predicate IsLast(host: Host, heap: Heap, t: Entries, keys: seq<Value>, c: string, depth: nat, i: nat)
    requires i < |keys|
  {
    Gives(host, heap, t, keys[i], c, depth) && forall j :: i < j < |keys| ==> !Gives(host, heap, t, keys[j], c, depth)
  }

  // ---------------------------------------------------------------- giving up

  ghost predicate SomeFieldFails(host: Host, heap: Heap, t: Entries, keys: seq<Value>, depth: nat) {
    exists i :: 0 <= i < |keys| && KeyText(host, keys[i]).Some? && Inner(host, heap, t, keys[i], depth).Err?
  }

  lemma {:induction false} FieldsFailIff(host: Host, heap: Heap, t: Entries, keys: seq<Value>, depth: nat)
    requires depth <= 64
    ensures Fields(host, heap, t, keys, depth).Err? <==> SomeFieldFails(host, heap, t, keys, depth)
    decreases |keys|
  {
    if keys != [] {
      var n := |keys| - 1;
      var init := keys[..n];
      FieldsFailIff(host, heap, t, init, depth);
      if SomeFieldFails(host, heap, t, init, depth) {
        var i :| 0 <= i < n && KeyText(host, init[i]).Some? && Inner(host, heap, t, init[i], depth).Err?;
        assert keys[i] == init[i];
      }
      forall i | 0 <= i < n && KeyText(host, keys[i]).Some? && Inner(host, heap, t, keys[i], depth).Err?
        ensures SomeFieldFails(host, heap, t, init, depth)
      {
        assert init[i] == keys[i];
      }
    }
  }

  /** Some entry that is visited fails. */
  ghost predicate SomeEntryFails(host: Host, heap: Heap, t: Entries, depth: nat) {
    exists k :: k in t && KeyText(host, k).Some? && Inner(host, heap, t, k, depth).Err?
  }

  lemma TableFailsIff(host: Host, heap: Heap, ref: nat, depth: nat)
    requires ref in heap && depth <= 64 && Visits(host.order(ref), heap[ref])
    ensures ToJson(host, heap, Table(ref), depth).Err? <==> SomeEntryFails(host, heap, heap[ref], depth)
  {
    var t, keys := heap[ref], host.order(ref);
    if IsArray(t) {
      var n := |t|;
      ItemsAre(host, heap, t, n, depth);
      if SomeItemFails(host, heap, t, n, depth) {
        var i: nat :| 1 <= i <= n && Inner(host, heap, t, Index(i), depth).Err?;
        assert Index(i) in FirstKeys(n);
      }
      forall k | k in t && KeyText(host, k).Some? && Inner(host, heap, t, k, depth).Err?
        ensures SomeItemFails(host, heap, t, n, depth)
      {
        assert k in FirstKeys(n);
      }
    } else {
      FieldsFailIff(host, heap, t, keys, depth);
      if SomeFieldFails(host, heap, t, keys, depth) {
        var i :| 0 <= i < |keys| && KeyText(host, keys[i]).Some? && Inner(host, heap, t, keys[i], depth).Err?;
        assert keys[i] in t;
      }
      forall k | k in t && KeyText(host, k).Some? && Inner(host, heap, t, k, depth).Err?
        ensures SomeFieldFails(host, heap, t, keys, depth)
      {
        assert k in keys;
      }
    }
  }

  /** Converting any value at all fails exactly when what it visits is nested deeper than 64. */
  lemma {:induction false} FailsIff(host: Host, heap: Heap, v: Value, depth: nat)
    requires Faithful(host, heap)
    ensures ToJson(host, heap, v, depth).Err? <==> !Nested(host, heap, v, 64 - depth)
    decreases if depth > 64 then 0 else 65 - depth
  {
    if depth <= 64 && v.Table? && v.ref in heap {
      var t := heap[v.ref];
      TableFailsIff(host, heap, v.ref, depth);
      forall k | k in t
        ensures Inner(host, heap, t, k, depth).Err? <==> !Nested(host, heap, t[k], 63 - depth)
      {
        FailsIff(host, heap, t[k], depth + 1);
      }
    }
  }

  // ---------------------------------------------------------------- cycles

  /** Going down from v by these keys, each of which has a text, ends at w. */
  predicate Leads(host: Host, heap: Heap, v: Value, path: seq<Value>, w: Value)
    decreases |path|
  {
    if path == [] then v == w
    else
      && v.Table? && v.ref in heap && path[0] in heap[v.ref] && KeyText(host, path[0]).Some?
      && Leads(host, heap, heap[v.ref][path[0]], path[1..], w)
  }

  lemma {:induction false} NestedBelow(host: Host, heap: Heap, v: Value, path: seq<Value>, w: Value, n: int)
    requires Leads(host, heap, v, path, w) && Nested(host, heap, v, n)
    ensures Nested(host, heap, w, n - |path|)
    decreases |path|
  {
    if path != [] {
      NestedBelow(host, heap, heap[v.ref][path[0]], path[1..], w, n - 1);
    }
  }

  lemma {:induction false} CycleIsNotNested(host: Host, heap: Heap, v: Value, path: seq<Value>, n: int)
    requires Leads(host, heap, v, path, v) && path != []
    ensures !Nested(host, heap, v, n)
    decreases if n < 0 then 0 else n + 1
  {
    if Nested(host, heap, v, n) {
      NestedBelow(host, heap, v, path, v, n);
      CycleIsNotNested(host, heap, v, path, n - |path|);
    }
  }

  lemma CycleBelow(host: Host, heap: Heap, v: Value, down: seq<Value>, w: Value, around: seq<Value>, n: int)
    requires Leads(host, heap, v, down, w) && around != [] && Leads(host, heap, w, around, w)
    ensures !Nested(host, heap, v, n)
  {
    if Nested(host, heap, v, n) {
      NestedBelow(host, heap, v, down, w, n);
      CycleIsNotNested(host, heap, w, around, n - |down|);
    }
  }

  /** A table from which keys with a text lead to a cycle is never converted. */
  lemma CyclesAreRejected(host: Host, heap: Heap, v: Value, down: seq<Value>, w: Value, around: seq<Value>, depth: nat)
    requires Faithful(host, heap) && Leads(host, heap, v, down, w) && around != [] && Leads(host, heap, w, around, w)
    ensures ToJson(host, heap, v, depth) == Err(TooDeep)
  {
    FailsIff(host, heap, v, depth);
    CycleBelow(host, heap, v, down, w, around, 64 - depth);
  }
}
