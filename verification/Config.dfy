/**
  The configuration tree (src/system/config.cc): reading and writing a path, merging
  the defaults into it, and the copy handed out by get_all.
 */
module Config {
  import opened Wrappers
  import opened JsonValue

  type Tree = map<string, Json>
  type Path = seq<string>

  // ---------------------------------------------------------------- reading and writing

  /** What stands at a path; only objects have anything below them. */
  function Lookup(j: Json, path: Path): Option<Json> {
    if path == [] then Some(j)
    else if j.Obj? && path[0] in j.fields then Lookup(j.fields[path[0]], path[1..])
    else None
  }

  function At(t: Tree, path: Path): Option<Json> {
    Lookup(Obj(t), path)
  }

  /** The value `set` compares with: null when the path is absent. */
  function OldValue(t: Tree, path: Path): Json {
    var v := At(t, path);
    if v.Some? then v.value else Null
  }

  /** The object below a key, or an empty one where there is none. */
  function Child(t: Tree, key: string): Tree {
    if key in t && t[key].Obj? then t[key].fields else map[]
  }

  /** The tree `set` leaves behind. */
  function SetAt(t: Tree, path: Path, v: Json): Tree
    requires path != []
    decreases |path|
  {
    var k := path[0];
    if |path| > 1 then t[k := Obj(SetAt(Child(t, k), path[1..], v))]
    else if OldValue(t, path) == v then t
    else t[k := v]
  }

  predicate Incomparable(p: Path, q: Path) {
    !(p <= q) && !(q <= p)
  }

  /** One step of a lookup. */
  lemma LookupStep(j: Json, p: Path)
    requires p != []
    ensures Lookup(j, p) == if !j.Obj? || p[0] !in j.fields then None
                            else if |p| == 1 then Some(j.fields[p[0]])
                            else Lookup(j.fields[p[0]], p[1..])
  {
    assert |p| == 1 ==> p[1..] == [];
  }

  /** Set, then get: the value, unless null was to be stored where there was nothing. */
  lemma {:induction false} GetAfterSet(t: Tree, path: Path, v: Json)
    requires path != []
    ensures At(SetAt(t, path, v), path) == if v == Null && At(t, path).None? then None else Some(v)
    decreases |path|
  {
    if |path| > 1 {
      GetAfterSet(Child(t, path[0]), path[1..], v);
      ChildLookup(t, path);
    } else {
      LookupStep(Obj(t), path);
      LookupStep(Obj(SetAt(t, path, v)), path);
    }
  }

  /** Below the first key, a path is read in the child. */
  lemma ChildLookup(t: Tree, path: Path)
    requires |path| > 1
    ensures At(t, path) == At(Child(t, path[0]), path[1..])
  {
    LookupStep(Obj(t), path);
    LookupStep(Obj(Child(t, path[0])), path[1..]);
    if path[0] in t {
      LookupStep(t[path[0]], path[1..]);
    }
  }

  lemma PrefixStep(p: Path, q: Path)
    requires p != [] && q != [] && p[0] == q[0]
    ensures p <= q <==> p[1..] <= q[1..]
  {
    if p[1..] <= q[1..] {
      assert forall i :: 1 <= i < |p| ==> p[i] == p[1..][i - 1] == q[1..][i - 1] == q[i];
    }
  }

  /** Every path that is neither above nor below the written one reads as before. */
  lemma {:induction false} SetKeepsOthers(t: Tree, path: Path, v: Json, q: Path)
    requires path != [] && q != [] && Incomparable(path, q)
    ensures At(SetAt(t, path, v), q) == At(t, q)
    decreases |path|
  {
    if q[0] == path[0] {
      PrefixStep(path, q);
      PrefixStep(q, path);
      SetKeepsOthers(Child(t, path[0]), path[1..], v, q[1..]);
      ChildLookup(t, q);
      ChildLookup(SetAt(t, path, v), q);
    }
  }

  /** Everything above the written path is an object afterwards. */
  lemma {:induction false} SetMakesObjects(t: Tree, path: Path, v: Json, q: Path)
    requires path != [] && q < path
    ensures At(SetAt(t, path, v), q).Some? && At(SetAt(t, path, v), q).value.Obj?
    decreases |path|
  {
    if q != [] {
      var p1, q1 := path[1..], q[1..];
      assert q1 < p1 by {
        assert forall i :: 0 <= i < |q1| ==> q1[i] == q[i + 1] == path[i + 1] == p1[i];
      }
      assert q[0] == path[0];
      SetMakesObjects(Child(t, path[0]), p1, v, q1);
    }
  }

  /** Writing what is there already changes nothing that can be read. */
  lemma {:induction false} SetSame(t: Tree, path: Path, v: Json)
    requires path != [] && At(t, path) == Some(v)
    ensures SetAt(t, path, v) == t
    decreases |path|
  {
    if |path| > 1 {
      ChildLookup(t, path);
      var child := Child(t, path[0]);
      SetSame(child, path[1..], v);
      assert path[0] in t && t[path[0]] == Obj(child);
    }
  }

  lemma SetKeepsKeys(t: Tree, path: Path, v: Json)
    requires path != []
    ensures t.Keys <= SetAt(t, path, v).Keys
  {
  }

  // ---------------------------------------------------------------- merging the defaults

  /** `merge_default_config` on one tree. */
  function Merged(cur: Tree, inc: Json): Tree
    requires inc.Obj?
    decreases inc
  {
    map k | k in cur.Keys + inc.fields.Keys ::
      if k !in inc.fields then cur[k]
      else if inc.fields[k].Obj? then Obj(Merged(Child(cur, k), inc.fields[k]))
      else if k in cur then cur[k]
      else inc.fields[k]
  }

  function MergedField(cur: Tree, inc: Json, k: string): Json
    requires inc.Obj? && k in inc.fields
  {
    if inc.fields[k].Obj? then Obj(Merged(Child(cur, k), inc.fields[k]))
    else if k in cur then cur[k]
    else inc.fields[k]
  }

  lemma MergedAtKey(cur: Tree, inc: Json, k: string)
    requires inc.Obj?
    ensures k in Merged(cur, inc) <==> k in cur || k in inc.fields
    ensures k in inc.fields ==> Merged(cur, inc)[k] == MergedField(cur, inc, k)
    ensures k in cur && k !in inc.fields ==> Merged(cur, inc)[k] == cur[k]
  {
  }

  /** A default leaf, and nothing stands at its path yet. */
  predicate IsAdded(cur: Tree, inc: Json, p: Path, v: Json) {
    Lookup(inc, p) == Some(v) && !v.Obj? && At(cur, p).None?
  }

  predicate IsObject(v: Option<Json>) {
    v.Some? && v.value.Obj?
  }

  /**
    What a path reads as after the merge: an object wherever the defaults have one; elsewhere
    what stood there, and the default leaf where nothing did.
   */
  lemma {:induction false} MergeAt(cur: Tree, inc: Json, p: Path)
    requires inc.Obj?
    ensures var was, dflt, now := At(cur, p), Lookup(inc, p), At(Merged(cur, inc), p);
            if IsObject(dflt) then IsObject(now) else now == if was.Some? then was else dflt
    decreases |p|
  {
    if p != [] {
      var k, rest := p[0], p[1..];
      var m := Merged(cur, inc);
      MergedAtKey(cur, inc, k);
      if k in inc.fields && inc.fields[k].Obj? {
        MergeAt(Child(cur, k), inc.fields[k], rest);
        if rest != [] {
          ChildLookup(cur, p);
        }
      } else if k in inc.fields {
        LookupStep(inc, p);
        LookupStep(Obj(cur), p);
        LookupStep(Obj(m), p);
        if rest != [] {
          LookupStep(inc.fields[k], rest);
        }
      }
    }
  }

  /** Merging again changes nothing. */
  lemma {:induction false} MergeTwice(cur: Tree, inc: Json)
    requires inc.Obj?
    ensures Merged(Merged(cur, inc), inc) == Merged(cur, inc)
    decreases inc
  {
    var m := Merged(cur, inc);
    forall k | k in inc.fields && inc.fields[k].Obj? ensures Merged(m, inc)[k] == m[k] {
      MergeTwice(Child(cur, k), inc.fields[k]);
      assert m[k] == MergedField(cur, inc, k) && Child(m, k) == Merged(Child(cur, k), inc.fields[k]);
    }
    assert Merged(m, inc).Keys == m.Keys;
  }

  /** Nor does it find anything to add. */
  lemma MergeTwiceAddsNothing(cur: Tree, inc: Json, p: Path, v: Json)
    requires inc.Obj?
    ensures !IsAdded(Merged(cur, inc), inc, p, v)
  {
    MergeAt(cur, inc, p);
  }

  // ---------------------------------------------------------------- the merge as it runs

  /** What stands on disk: no file, one that cannot be opened, one that is not JSON, or a tree. */
  datatype File = Missing | Locked | Malformed | Stored(tree: Tree)

  /** What `load_from_disk` starts from. */
  function Kept(file: File): Tree {
    if file.Stored? then file.tree else map[]
  }

  /** What the constructor leaves on disk before it loads. */
  function Created(file: File, defaults: Tree): File {
    if file.Missing? then Stored(defaults) else file
  }

  lemma {:induction false} MergeIntoNothing(inc: Json)
    requires inc.Obj?
    ensures Merged(map[], inc) == inc.fields
    decreases inc
  {
    forall k | k in inc.fields ensures MergedField(map[], inc, k) == inc.fields[k] {
      if inc.fields[k].Obj? {
        MergeIntoNothing(inc.fields[k]);
      }
    }
  }

  lemma {:induction false} MergeSelf(inc: Json)
    requires inc.Obj?
    ensures Merged(inc.fields, inc) == inc.fields
    decreases inc
  {
    forall k | k in inc.fields ensures MergedField(inc.fields, inc, k) == inc.fields[k] {
      if inc.fields[k].Obj? {
        MergeSelf(inc.fields[k]);
      }
    }
  }

  datatype Note = Note(path: Path, value: Json)

  lemma EmptyOrSome(notes: seq<Note>)
    ensures notes == [] || exists n :: n in notes
  {
    if notes != [] {
      assert notes[0] in notes;
    }
  }

  /** The tree when only the keys in `done` have been merged. */
  function MergedOn(cur: Tree, inc: Json, done: set<string>): Tree
    requires inc.Obj? && done <= inc.fields.Keys
  {
    map k | k in cur.Keys + done :: if k in done then MergedField(cur, inc, k) else cur[k]
  }

  /** The notes given so far are exactly the leaves added so far, each once. */
  ghost predicate NotesOn(notes: seq<Note>, path: Path, cur: Tree, inc: Json, done: set<string>) {
    && (forall n :: n in notes <==>
          path < n.path && n.path[|path|] in done && IsAdded(cur, inc, n.path[|path|..], n.value))
    && (forall i, j :: 0 <= i < j < |notes| ==> notes[i] != notes[j])
  }

  /** Notes of one more key join the others. */
  lemma NotesJoin(notes: seq<Note>, more: seq<Note>, path: Path, cur: Tree, inc: Json, done: set<string>, k: string)
    requires NotesOn(notes, path, cur, inc, done) && k !in done
    requires NotesOn(more, path, cur, inc, {k})
    ensures NotesOn(notes + more, path, cur, inc, done + {k})
  {
    var all := notes + more;
    forall i, j | 0 <= i < j < |all| ensures all[i] != all[j] {
      if i < |notes| <= j {
        assert all[i] in notes && all[j] in more;
      }
    }
    forall n ensures n in all <==>
        path < n.path && n.path[|path|] in done + {k} && IsAdded(cur, inc, n.path[|path|..], n.value)
    {
      assert n in all <==> n in notes || n in more;
    }
  }

  /** The leaves added below key k are those added in the child, one step down. */
  lemma NotesBelow(notes: seq<Note>, path: Path, cur: Tree, inc: Json, k: string)
    requires inc.Obj? && k in inc.fields && inc.fields[k].Obj?
    requires NotesOn(notes, path + [k], Child(cur, k), inc.fields[k], inc.fields[k].fields.Keys)
    ensures NotesOn(notes, path, cur, inc, {k})
  {
    forall n: Note ensures n in notes <==>
        path < n.path && n.path[|path|] in {k} && IsAdded(cur, inc, n.path[|path|..], n.value)
    {
      NoteBelow(n, path, cur, inc, k);
    }
  }

  lemma NoteBelow(n: Note, path: Path, cur: Tree, inc: Json, k: string)
    requires inc.Obj? && k in inc.fields && inc.fields[k].Obj?
    ensures (path + [k] < n.path && n.path[|path| + 1] in inc.fields[k].fields.Keys
             && IsAdded(Child(cur, k), inc.fields[k], n.path[|path| + 1..], n.value))
            <==> (path < n.path && n.path[|path|] == k && IsAdded(cur, inc, n.path[|path|..], n.value))
  {
    var m := |path|;
    if path < n.path && n.path[m] == k {
      var p := n.path[m..];
      assert p[0] == k && p[1..] == n.path[m + 1..];
      if |p| == 1 {
        assert Lookup(inc, p) == Some(inc.fields[k]);
      } else {
        ChildLookup(cur, p);
        assert path + [k] < n.path;
        assert Lookup(inc, p) == Lookup(inc.fields[k], p[1..]);
      }
    }
  }

  /** The note for a leaf under key k. */
  lemma NoteLeaf(path: Path, cur: Tree, inc: Json, k: string)
    requires inc.Obj? && k in inc.fields && !inc.fields[k].Obj?
    ensures NotesOn(if k in cur then [] else [Note(path + [k], inc.fields[k])], path, cur, inc, {k})
  {
    forall n: Note ensures
        path < n.path && n.path[|path|] in {k} && IsAdded(cur, inc, n.path[|path|..], n.value)
        <==> k !in cur && n == Note(path + [k], inc.fields[k])
    {
      if path < n.path && n.path[|path|] == k {
        var p := n.path[|path|..];
        assert n.path == path + p && p[0] == k;
        LookupStep(inc, p);
        LookupStep(Obj(cur), p);
        if |p| == 1 {
          assert p == [k];
        } else {
          LookupStep(inc.fields[k], p[1..]);
        }
      }
    }
  }

  /** One more key merged. */
  lemma MergedOnStep(cur: Tree, inc: Json, done: set<string>, k: string)
    requires inc.Obj? && done <= inc.fields.Keys && k in inc.fields && k !in done
    ensures var out := MergedOn(cur, inc, done);
            && (k in out <==> k in cur) && (k in cur ==> out[k] == cur[k]) && Child(out, k) == Child(cur, k)
            && MergedField(out, inc, k) == MergedField(cur, inc, k)
            && MergedOn(cur, inc, done + {k}) == out[k := MergedField(out, inc, k)]
  {
  }

  lemma MergedOnEnds(cur: Tree, inc: Json)
    requires inc.Obj?
    ensures MergedOn(cur, inc, {}) == cur && MergedOn(cur, inc, inc.fields.Keys) == Merged(cur, inc)
  {
    forall k ensures k in cur || k in inc.fields ==> k in Merged(cur, inc) {
      MergedAtKey(cur, inc, k);
    }
  }

  /** One turn of the loop: the entry under `k`. */
  method MergeKey(cur: Tree, inc: Json, path: Path, k: string) returns (out: Tree, notes: seq<Note>)
    requires inc.Obj? && k in inc.fields
    ensures out == cur[k := MergedField(cur, inc, k)]
    ensures NotesOn(notes, path, cur, inc, {k})
    decreases inc, 0
  {
    var value := inc.fields[k];
    if value.Obj? {
      var below;
      below, notes := MergeInto(Child(cur, k), value, path + [k]);
      out := cur[k := Obj(below)];
      NotesBelow(notes, path, cur, inc, k);
    } else {
      NoteLeaf(path, cur, inc, k);
      if k in cur {
        out, notes := cur, [];
        assert out == cur[k := cur[k]];
      } else {
        out, notes := cur[k := value], [Note(path + [k], value)];
      }
    }
  }

  lemma NotesOfSame(notes: seq<Note>, path: Path, cur: Tree, out: Tree, inc: Json, k: string)
    requires NotesOn(notes, path, out, inc, {k})
    requires k in out <==> k in cur
    requires k in cur ==> out[k] == cur[k]
    ensures NotesOn(notes, path, cur, inc, {k})
  {
    forall n: Note | path < n.path && n.path[|path|] == k
      ensures At(cur, n.path[|path|..]) == At(out, n.path[|path|..])
    {
      LookupStep(Obj(cur), n.path[|path|..]);
      LookupStep(Obj(out), n.path[|path|..]);
    }
  }

  /** `merge_default_config`, taking the keys in any order. */
  method MergeInto(cur: Tree, inc: Json, path: Path) returns (out: Tree, notes: seq<Note>)
    requires inc.Obj?
    ensures out == Merged(cur, inc)
    ensures NotesOn(notes, path, cur, inc, inc.fields.Keys)
    decreases inc
  {
    out, notes := cur, [];
    var done: set<string> := {};
    MergedOnEnds(cur, inc);
    while done != inc.fields.Keys
      invariant done <= inc.fields.Keys
      invariant out == MergedOn(cur, inc, done)
      invariant NotesOn(notes, path, cur, inc, done)
      decreases |inc.fields.Keys - done|
    {
      var k :| k in inc.fields.Keys - done;
      MergedOnStep(cur, inc, done, k);
      ghost var before := out;
      var more;
      out, more := MergeKey(out, inc, path, k);
      NotesOfSame(more, path, cur, before, inc, k);
      NotesJoin(notes, more, path, cur, inc, done, k);
      notes := notes + more;
      done := done + {k};
    }
  }

  // ---------------------------------------------------------------- the copy handed out

  /** `get_all`: the defaults, overlaid with the stored top-level entries. */
  function Overlay(defaults: Tree, data: Tree): Tree {
    defaults + data
  }

  lemma OverlayIsStored(defaults: Tree, data: Tree)
    ensures Overlay(defaults, data) == data <==> defaults.Keys <= data.Keys
  {
    assert Overlay(defaults, data).Keys == defaults.Keys + data.Keys;
  }

  function RunSets(t: Tree, writes: seq<Note>): Tree
    requires forall w :: w in writes ==> w.path != []
    decreases |writes|
  {
    if writes == [] then t
    else
      var w := writes[|writes| - 1];
      SetAt(RunSets(t, writes[..|writes| - 1]), w.path, w.value)
  }

  lemma {:induction false} RunKeepsKeys(t: Tree, writes: seq<Note>)
    requires forall w :: w in writes ==> w.path != []
    ensures t.Keys <= RunSets(t, writes).Keys
    decreases |writes|
  {
    if writes != [] {
      RunKeepsKeys(t, writes[..|writes| - 1]);
      SetKeepsKeys(RunSets(t, writes[..|writes| - 1]), writes[|writes| - 1].path, writes[|writes| - 1].value);
    }
  }

  /** Once the defaults are merged in, any run of sets later get_all is the stored tree. */
  lemma GetAllIsStored(t: Tree, defaults: Tree, writes: seq<Note>)
    requires forall w :: w in writes ==> w.path != []
    ensures var data := RunSets(Merged(t, Obj(defaults)), writes);
            Overlay(defaults, data) == data
  {
    var merged := Merged(t, Obj(defaults));
    RunKeepsKeys(merged, writes);
    forall k | k in defaults ensures k in merged {
      MergedAtKey(t, Obj(defaults), k);
    }
    OverlayIsStored(defaults, RunSets(merged, writes));
  }

  // ---------------------------------------------------------------- the manager

  /** The tree around a subtree: the objects passed on the way down, and the keys taken. */
  function Plug(frames: seq<Tree>, keys: Path, inner: Tree): Tree
    requires |frames| <= |keys|
    decreases |frames|
  {
    if frames == [] then inner
    else
      var n := |frames| - 1;
      Plug(frames[..n], keys, frames[n][keys[n] := Obj(inner)])
  }

  /** `config_manager`, with the notifications it gives in order. */
  class Manager {
    var data: Tree
    var defaults: Tree
    var notes: seq<Note>
    var saveDisabled: bool

    /** A missing file is first created from the defaults; then the file is loaded. */
    constructor (file: File, defaults: Tree)
      ensures this.defaults == defaults && saveDisabled == file.Locked?
      ensures data == if file.Stored? then Merged(file.tree, Obj(defaults)) else defaults
      ensures forall n :: n in notes <==>
                n.path != [] && IsAdded(Kept(Created(file, defaults)), Obj(defaults), n.path, n.value)
      ensures file.Missing? ==> notes == []
    {
      this.data, this.defaults, this.notes, this.saveDisabled := map[], defaults, [], false;
      new;
      Load(Created(file, defaults));
      assert notes[0..] == notes;
      MergeIntoNothing(Obj(defaults));
      if file.Missing? {
        MergeSelf(Obj(defaults));
        EmptyOrSome(notes);
      }
    }

    method Get(path: Path, def: Json) returns (v: Json)
      ensures v == if path != [] && At(data, path).Some? then At(data, path).value else def
    {
      if path == [] {
        return def;
      }
      var current, i := Obj(data), 0;
      while i + 1 < |path|
        invariant i < |path|
        invariant At(data, path) == Lookup(current, path[i..])
        decreases |path| - i
      {
        LookupStep(current, path[i..]);
        if !current.Obj? || path[i] !in current.fields {
          return def;
        }
        assert path[i..][1..] == path[i + 1..];
        current, i := current.fields[path[i]], i + 1;
      }
      LookupStep(current, path[i..]);
      if current.Obj? && path[i] in current.fields {
        return current.fields[path[i]];
      }
      return def;
    }

    /** The writing half of `set`: down the path, making objects on the way, and the write at its end. */
    method Assign(path: Path, value: Json) returns (oldValue: Json)
      requires path != []
      modifies this`data
      ensures data == SetAt(old(data), path, value)
      ensures oldValue == OldValue(old(data), path)
    {
      var current, frames := data, [];
      while |frames| + 1 < |path|
        invariant |frames| < |path|
        invariant Plug(frames, path, SetAt(current, path[|frames|..], value)) == SetAt(old(data), path, value)
        invariant OldValue(current, path[|frames|..]) == OldValue(old(data), path)
        decreases |path| - |frames|
      {
        var i := |frames|;
        var rest := path[i..];
        assert rest[0] == path[i] && rest[1..] == path[i + 1..];
        ChildLookup(current, rest);
        assert (frames + [current])[..i] == frames;
        frames, current := frames + [current], Child(current, path[i]);
      }
      var last := path[|frames|..];
      LookupStep(Obj(current), last);
      oldValue := if last[0] in current then current[last[0]] else Null;
      if oldValue != value {
        current := current[last[0] := value];
      }
      while frames != []
        invariant |frames| < |path|
        invariant Plug(frames, path, current) == SetAt(old(data), path, value)
      {
        var n := |frames| - 1;
        current, frames := frames[n][path[n] := Obj(current)], frames[..n];
      }
      data := current;
    }

    /** `set` when no listener reacts: a change is announced unless propagation is skipped. */
    method Set(path: Path, value: Json, skipPropagation: bool)
      requires path != []
      modifies this`data, this`notes
      ensures data == SetAt(old(data), path, value)
      ensures notes == old(notes)
              + if OldValue(old(data), path) != value && !skipPropagation then [Note(path, value)] else []
    {
      var oldValue := Assign(path, value);
      if oldValue != value && !skipPropagation {
        notes := notes + [Note(path, value)];
      }
    }

    /** `load_from_disk`: what could be read, completed by the defaults; a locked file is never overwritten. */
    method Load(file: File)
      modifies this`data, this`notes, this`saveDisabled
      ensures data == if file.Stored? then Merged(file.tree, Obj(defaults)) else defaults
      ensures saveDisabled == (old(saveDisabled) || file.Locked?)
      ensures |notes| >= |old(notes)| && notes[..|old(notes)|] == old(notes)
      ensures forall i, j :: |old(notes)| <= i < j < |notes| ==> notes[i] != notes[j]
      ensures forall n :: n in notes[|old(notes)|..] <==>
                n.path != [] && IsAdded(Kept(file), Obj(defaults), n.path, n.value)
    {
      var stored := map[];
      match file {
        case Stored(tree) => stored := tree;
        case Locked => saveDisabled := true;
        case Malformed =>
        case Missing =>
      }
      var added;
      MergeIntoNothing(Obj(defaults));
      data, added := MergeInto(stored, Obj(defaults), []);
      forall n: Note
        ensures n in added <==> n.path != [] && IsAdded(stored, Obj(defaults), n.path, n.value)
      {
        assert n.path[0..] == n.path;
        if n.path != [] {
          LookupStep(Obj(defaults), n.path);
        }
      }
      notes := notes + added;
    }

    method GetAll() returns (result: Tree)
      ensures result == Overlay(defaults, data)
    {
      result := defaults;
      var left := data.Keys;
      while left != {}
        invariant left <= data.Keys
        invariant result == defaults + map k | k in data.Keys - left :: data[k]
        decreases left
      {
        var k :| k in left;
        result, left := result[k := data[k]], left - {k};
      }
      assert data.Keys - left == data.Keys;
    }
  }
}
