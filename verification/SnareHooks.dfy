/**
  Installing and removing inline hooks (thirdparty/libsnare.h): the five bytes at each
  hooked address, over any run of single and batch operations, and the thread
  instruction pointers carried over to the trampoline and back.
 */
module SnareHooks {
  import opened Wrappers
  import opened Words
  import opened SnareRelocate
  import opened SnareTrampoline

  // ---------------------------------------------------------------- one hook

  /** The parts of `snare_inline_s` that never change once the hook exists. */
  datatype Hook = Hook(src: nat, dst: u64, relay: Option<int>, saved: seq<byte>, trampoline: bool)

  /** What `snare_inline_new` decides about the relay, given the page allocated near src, if any. */
  function RelayFor(src: int, dst: int, page: Option<int>): Option<int> {
    if page.Some? && !InRel32Range(src, dst) then Some(page.value + 59) else None
  }

  /** Where the five-byte jump leads. */
  function JumpTarget(h: Hook): int {
    if h.relay.Some? then h.relay.value else h.dst
  }

  /** `snare_write_hook_jmp`. */
  function HookBytes(h: Hook): (j: seq<byte>)
    ensures |j| == 5
  {
    RelJump(h.src, JumpTarget(h))
  }

  /** `snare_inline_read_dst`, on the bytes at `src`. */
  function ReadDst(bytes: seq<byte>, src: int): Option<int>
    requires |bytes| >= 5
  {
    if bytes[0] != 0xE9 then None else Some(ReadI32(bytes, 1) + src + 5)
  }

  /** Reading a written jump back gives its target, unless the distance was cut to 32 bits. */
  lemma ReadDstInvertsJump(src: int, dst: int)
    ensures ReadDst(RelJump(src, dst), src) == Some(dst) <==> FitsInt32(dst - (src + 5))
  {
    var j := RelJump(src, dst);
    assert j[1..5] == WriteI32(dst - (src + 5));
    ReadsWrittenI32(dst - (src + 5), j, 1);
  }

  /** The hook ends up at dst: by its own jump, or by way of an absolute jump standing at the relay. */
  predicate Reaches(h: Hook) {
    && JumpsTo(HookBytes(h), h.src, JumpTarget(h))
    && (h.relay.Some? ==> JumpsTo(AbsJump(h.dst), h.relay.value, h.dst))
  }

  /** With a page near src the hook always reaches dst; without one, exactly when dst is in rel32 reach. */
  lemma HookReaches(h: Hook, page: Option<int>)
    requires page.Some? ==> InRel32Range(h.src, page.value)
    requires h.relay == RelayFor(h.src, h.dst, page)
    ensures page.Some? ==> Reaches(h)
    ensures page.None? ==> (Reaches(h) <==> FitsInt32(h.dst - (h.src + 5)))
  {
    RelJumpReaches(h.src, JumpTarget(h));
    if h.relay.Some? {
      AbsJumpReaches(h.relay.value, h.dst);
    }
  }

  /** A relay on the page of the trampoline stands behind it. */
  lemma RelayIsClear(mem: seq<byte>, page: int, src: seq<byte>, sbase: int, dst: int, near: bool,
                     os: seq<nat>, ts: seq<nat>, size: nat)
    requires Finished(mem, page, src, sbase, near, os, ts, size) && Sound(src)
    ensures RelayFor(sbase, dst, Some(page)).Some? <==> !InRel32Range(sbase, dst)
    ensures RelayFor(sbase, dst, Some(page)).Some? ==> page + size <= RelayFor(sbase, dst, Some(page)).value
    ensures RelayFor(sbase, dst, None).None?
  {
    BoundariesFit(mem, page, src, sbase, os, ts);
  }

  // ---------------------------------------------------------------- the machine

  datatype State = State(mem: seq<byte>, installed: seq<bool>)

  datatype Op =
    | Install(i: nat)
    | Remove(i: nat)
    | InstallBatch(list: seq<Option<nat>>)
    | RemoveBatch(list: seq<Option<nat>>)

  const EINVAL: int := 22

  /** Hooks stand on disjoint five-byte regions of the code. */
  predicate Disjoint(hooks: seq<Hook>, size: nat) {
    && (forall i :: 0 <= i < |hooks| ==> hooks[i].src + 5 <= size && |hooks[i].saved| == 5)
    && (forall i, j :: 0 <= i < |hooks| && 0 <= j < |hooks| && i != j ==>
          hooks[i].src + 5 <= hooks[j].src || hooks[j].src + 5 <= hooks[i].src)
  }

  function BytesAt(mem: seq<byte>, src: nat): seq<byte>
    requires src + 5 <= |mem|
  {
    mem[src..src + 5]
  }

  /** Every hook's five bytes are the saved ones or its jump, as its flag says. */
  predicate Inv(hooks: seq<Hook>, s: State) {
    && Disjoint(hooks, |s.mem|) && |s.installed| == |hooks|
    && forall i :: 0 <= i < |hooks| ==>
         BytesAt(s.mem, hooks[i].src) == if s.installed[i] then HookBytes(hooks[i]) else hooks[i].saved
  }

  /** Write hook i's jump, or its saved bytes, and set the flag. */
  function Flip(hooks: seq<Hook>, s: State, i: nat, on: bool): State
    requires i < |hooks| == |s.installed| && hooks[i].src + 5 <= |s.mem| && |hooks[i].saved| == 5
  {
    State(Patched(s.mem, hooks[i].src, if on then HookBytes(hooks[i]) else hooks[i].saved), s.installed[i := on])
  }

  predicate Fits(hooks: seq<Hook>, s: State) {
    |s.installed| == |hooks| && forall i :: 0 <= i < |hooks| ==> hooks[i].src + 5 <= |s.mem| && |hooks[i].saved| == 5
  }

  predicate ValidList(hooks: seq<Hook>, list: seq<Option<nat>>) {
    forall k :: 0 <= k < |list| && list[k].Some? ==> list[k].value < |hooks|
  }

  predicate Enabled(hooks: seq<Hook>, op: Op) {
    match op
    case Install(i) => i < |hooks|
    case Remove(i) => i < |hooks|
    case InstallBatch(list) => ValidList(hooks, list)
    case RemoveBatch(list) => ValidList(hooks, list)
  }

  /** One entry of a batch: a null entry and a hook already in the wanted state are passed over. */
  function BatchStep(hooks: seq<Hook>, s: State, entry: Option<nat>, on: bool): (State, int)
    requires Fits(hooks, s) && (entry.Some? ==> entry.value < |hooks|)
  {
    if entry.None? || s.installed[entry.value] == on then (s, 0)
    else (Flip(hooks, s, entry.value, on), 1)
  }

  function Batch(hooks: seq<Hook>, s: State, list: seq<Option<nat>>, on: bool): (r: (State, int))
    requires Fits(hooks, s) && ValidList(hooks, list)
    ensures Fits(hooks, r.0)
    decreases |list|
  {
    if list == [] then (s, 0)
    else
      var before := Batch(hooks, s, list[..|list| - 1], on);
      var last := BatchStep(hooks, before.0, list[|list| - 1], on);
      (last.0, before.1 + last.1)
  }

  /** One entry more. */
  lemma BatchNext(hooks: seq<Hook>, s: State, list: seq<Option<nat>>, k: nat, on: bool, r: (State, int), next: (State, int))
    requires Fits(hooks, s) && ValidList(hooks, list) && k < |list|
    requires r == Batch(hooks, s, list[..k], on) && next == BatchStep(hooks, r.0, list[k], on)
    ensures (next.0, r.1 + next.1) == Batch(hooks, s, list[..k + 1], on)
  {
    assert list[..k + 1][..k] == list[..k];
  }

  /** The new state and the value returned. */
  function Apply(hooks: seq<Hook>, s: State, op: Op): (r: (State, int))
    requires Fits(hooks, s) && Enabled(hooks, op)
    ensures Fits(hooks, r.0)
  {
    match op
    case Install(i) =>
      if s.installed[i] || !hooks[i].trampoline then (s, -EINVAL) else (Flip(hooks, s, i, true), 0)
    case Remove(i) =>
      if !s.installed[i] then (s, -EINVAL) else (Flip(hooks, s, i, false), 0)
    case InstallBatch(list) => Batch(hooks, s, list, true)
    case RemoveBatch(list) => Batch(hooks, s, list, false)
  }

  predicate EnabledRun(hooks: seq<Hook>, ops: seq<Op>) {
    forall k :: 0 <= k < |ops| ==> Enabled(hooks, ops[k])
  }

  function Run(hooks: seq<Hook>, s: State, ops: seq<Op>): (t: State)
    requires Fits(hooks, s) && EnabledRun(hooks, ops)
    ensures Fits(hooks, t)
    decreases |ops|
  {
    if ops == [] then s else Apply(hooks, Run(hooks, s, ops[..|ops| - 1]), ops[|ops| - 1]).0
  }

  // ---------------------------------------------------------------- what every run keeps

  /** Outside the hooked regions. */
  predicate Elsewhere(hooks: seq<Hook>, k: int) {
    forall i :: 0 <= i < |hooks| ==> !(hooks[i].src <= k < hooks[i].src + 5)
  }

  predicate SameElsewhere(hooks: seq<Hook>, s: State, t: State) {
    |t.mem| == |s.mem| && forall k :: 0 <= k < |s.mem| && Elsewhere(hooks, k) ==> t.mem[k] == s.mem[k]
  }

  lemma PatchedRegions(mem: seq<byte>, at: nat, bytes: seq<byte>, src: nat)
    requires |bytes| == 5 && at + 5 <= |mem| && src + 5 <= |mem|
    ensures |Patched(mem, at, bytes)| == |mem|
    ensures src == at ==> BytesAt(Patched(mem, at, bytes), src) == bytes
    ensures src + 5 <= at || at + 5 <= src ==> BytesAt(Patched(mem, at, bytes), src) == BytesAt(mem, src)
    ensures forall k :: 0 <= k < |mem| && !(at <= k < at + 5) ==> Patched(mem, at, bytes)[k] == mem[k]
  {
  }

  lemma FlipKeeps(hooks: seq<Hook>, s: State, i: nat, on: bool)
    requires Inv(hooks, s) && i < |hooks|
    ensures Inv(hooks, Flip(hooks, s, i, on)) && SameElsewhere(hooks, s, Flip(hooks, s, i, on))
  {
    var t, at := Flip(hooks, s, i, on), hooks[i].src;
    var bytes := if on then HookBytes(hooks[i]) else hooks[i].saved;
    assert t == State(Patched(s.mem, at, bytes), s.installed[i := on]);
    PatchedRegions(s.mem, at, bytes, at);
    forall j | 0 <= j < |hooks|
      ensures BytesAt(t.mem, hooks[j].src) == if t.installed[j] then HookBytes(hooks[j]) else hooks[j].saved
    {
      PatchedRegions(s.mem, at, bytes, hooks[j].src);
    }
  }

  lemma {:induction false} BatchKeeps(hooks: seq<Hook>, s: State, list: seq<Option<nat>>, on: bool)
    requires Inv(hooks, s) && ValidList(hooks, list)
    ensures Inv(hooks, Batch(hooks, s, list, on).0) && SameElsewhere(hooks, s, Batch(hooks, s, list, on).0)
    decreases |list|
  {
    if list != [] {
      var before, entry := Batch(hooks, s, list[..|list| - 1], on).0, list[|list| - 1];
      BatchKeeps(hooks, s, list[..|list| - 1], on);
      if entry.Some? {
        FlipKeeps(hooks, before, entry.value, on);
      }
    }
  }

  lemma StepKeeps(hooks: seq<Hook>, s: State, op: Op)
    requires Inv(hooks, s) && Enabled(hooks, op)
    ensures Inv(hooks, Apply(hooks, s, op).0) && SameElsewhere(hooks, s, Apply(hooks, s, op).0)
  {
    match op
    case Install(i) => FlipKeeps(hooks, s, i, true);
    case Remove(i) => FlipKeeps(hooks, s, i, false);
    case InstallBatch(list) => BatchKeeps(hooks, s, list, true);
    case RemoveBatch(list) => BatchKeeps(hooks, s, list, false);
  }

  lemma {:induction false} RunKeeps(hooks: seq<Hook>, s: State, ops: seq<Op>)
    requires Inv(hooks, s) && EnabledRun(hooks, ops)
    ensures Inv(hooks, Run(hooks, s, ops)) && SameElsewhere(hooks, s, Run(hooks, s, ops))
    decreases |ops|
  {
    if ops != [] {
      RunKeeps(hooks, s, ops[..|ops| - 1]);
      StepKeeps(hooks, Run(hooks, s, ops[..|ops| - 1]), ops[|ops| - 1]);
    }
  }

  // ---------------------------------------------------------------- what one operation does

  /** Hook i is in the wanted state; nothing else, neither byte nor flag, is another than before. */
  predicate Switched(hooks: seq<Hook>, s: State, t: State, i: nat, on: bool)
    requires i < |hooks| == |s.installed| && hooks[i].src + 5 <= |s.mem|
  {
    && |t.mem| == |s.mem| && |t.installed| == |s.installed|
    && t.installed[i] == on
    && BytesAt(t.mem, hooks[i].src) == (if on then HookBytes(hooks[i]) else hooks[i].saved)
    && (forall j :: 0 <= j < |hooks| && j != i ==> t.installed[j] == s.installed[j])
    && (forall k :: 0 <= k < |s.mem| && !(hooks[i].src <= k < hooks[i].src + 5) ==> t.mem[k] == s.mem[k])
  }

  lemma FlipSwitches(hooks: seq<Hook>, s: State, i: nat, on: bool)
    requires Fits(hooks, s) && i < |hooks|
    ensures Switched(hooks, s, Flip(hooks, s, i, on), i, on)
  {
    PatchedRegions(s.mem, hooks[i].src, if on then HookBytes(hooks[i]) else hooks[i].saved, hooks[i].src);
  }

  /** Installing succeeds exactly for a hook with a trampoline that is off, and then switches it on; else nothing changes. */
  lemma InstallDoes(hooks: seq<Hook>, s: State, i: nat)
    requires Fits(hooks, s) && i < |hooks|
    ensures var r := Apply(hooks, s, Install(i));
            if !s.installed[i] && hooks[i].trampoline then r.1 == 0 && Switched(hooks, s, r.0, i, true)
            else r.1 == -22 && r.0 == s
  {
    FlipSwitches(hooks, s, i, true);
  }

  /** Removing succeeds exactly for a hook that is on, and then switches it off; else nothing changes. */
  lemma RemoveDoes(hooks: seq<Hook>, s: State, i: nat)
    requires Fits(hooks, s) && i < |hooks|
    ensures var r := Apply(hooks, s, Remove(i));
            if s.installed[i] then r.1 == 0 && Switched(hooks, s, r.0, i, false) else r.1 == -22 && r.0 == s
  {
    FlipSwitches(hooks, s, i, false);
  }

  /** What an operation asks of hook j: to be on, to be off, or nothing. */
  function Asked(hooks: seq<Hook>, op: Op, j: nat): Option<bool>
    requires j < |hooks|
  {
    match op
    case Install(i) => if i == j && hooks[j].trampoline then Some(true) else None
    case Remove(i) => if i == j then Some(false) else None
    case InstallBatch(list) => if Some(j) in list then Some(true) else None
    case RemoveBatch(list) => if Some(j) in list then Some(false) else None
  }

  /** The last operation that asks anything of hook j, if there is one. */
  function LastAsked(hooks: seq<Hook>, ops: seq<Op>, j: nat): Option<bool>
    requires j < |hooks|
    decreases |ops|
  {
    if ops == [] then None
    else if Asked(hooks, ops[|ops| - 1], j).Some? then Asked(hooks, ops[|ops| - 1], j)
    else LastAsked(hooks, ops[..|ops| - 1], j)
  }

  lemma StepObeys(hooks: seq<Hook>, s: State, op: Op, j: nat)
    requires Fits(hooks, s) && Enabled(hooks, op) && j < |hooks|
    ensures Apply(hooks, s, op).0.installed[j]
            == (if Asked(hooks, op, j).Some? then Asked(hooks, op, j).value else s.installed[j])
  {
    match op
    case Install(i) => InstallDoes(hooks, s, i);
    case Remove(i) => RemoveDoes(hooks, s, i);
    case InstallBatch(list) => BatchCounts(hooks, s, list, true);
    case RemoveBatch(list) => BatchCounts(hooks, s, list, false);
  }

  /**
    After any run a hook is in the state asked for last, or as it was if nothing was asked, and its
    five bytes are the jump or the saved ones accordingly.
   */
  lemma {:induction false} LastAskedWins(hooks: seq<Hook>, s: State, ops: seq<Op>, j: nat)
    requires Inv(hooks, s) && EnabledRun(hooks, ops) && j < |hooks|
    ensures var t, asked := Run(hooks, s, ops), LastAsked(hooks, ops, j);
            && t.installed[j] == (if asked.Some? then asked.value else s.installed[j])
            && BytesAt(t.mem, hooks[j].src) == (if t.installed[j] then HookBytes(hooks[j]) else hooks[j].saved)
    decreases |ops|
  {
    RunKeeps(hooks, s, ops);
    if ops != [] {
      LastAskedWins(hooks, s, ops[..|ops| - 1], j);
      StepObeys(hooks, Run(hooks, s, ops[..|ops| - 1]), ops[|ops| - 1], j);
    }
  }

  /** After any run the flag can be read off the code: both ways exactly when saved bytes and jump differ. */
  lemma FlagsTellCode(hooks: seq<Hook>, s: State, ops: seq<Op>, i: nat)
    requires Inv(hooks, s) && EnabledRun(hooks, ops) && i < |hooks|
    ensures var t, h := Run(hooks, s, ops), hooks[i];
            && Inv(hooks, t)
            && (((t.installed[i] <==> BytesAt(t.mem, h.src) == HookBytes(h))
                 && (!t.installed[i] <==> BytesAt(t.mem, h.src) == h.saved))
                <==> h.saved != HookBytes(h))
  {
    RunKeeps(hooks, s, ops);
  }

  /** Where src already holds the very jump, the code does not tell. */
  lemma SavedJumpIsAmbiguous(h: Hook, s: State)
    requires h == Hook(0, 5, None, RelJump(0, 5), true) && s == State(RelJump(0, 5), [false])
    ensures Inv([h], s) && !s.installed[0] && BytesAt(s.mem, h.src) == HookBytes(h)
  {
    assert s.mem[0..5] == s.mem;
  }

  lemma ByteAt(mem: seq<byte>, src: nat, k: nat)
    requires src <= k < src + 5 <= |mem|
    ensures mem[k] == BytesAt(mem, src)[k - src]
  {
  }

  lemma SameFlagsSameByte(hooks: seq<Hook>, s: State, t: State, k: nat)
    requires Inv(hooks, s) && Inv(hooks, t) && SameElsewhere(hooks, s, t) && t.installed == s.installed
    requires k < |s.mem|
    ensures t.mem[k] == s.mem[k]
  {
    if !Elsewhere(hooks, k) {
      var i :| 0 <= i < |hooks| && hooks[i].src <= k < hooks[i].src + 5;
      var src := hooks[i].src;
      ByteAt(t.mem, src, k);
      ByteAt(s.mem, src, k);
    }
  }

  /** Whatever was done in between: once the flags are back, so is every byte of the code. */
  lemma SameFlagsSameCode(hooks: seq<Hook>, s: State, ops: seq<Op>)
    requires Inv(hooks, s) && EnabledRun(hooks, ops) && Run(hooks, s, ops).installed == s.installed
    ensures Run(hooks, s, ops).mem == s.mem
  {
    RunKeeps(hooks, s, ops);
    var t := Run(hooks, s, ops);
    forall k | 0 <= k < |s.mem| ensures t.mem[k] == s.mem[k] {
      SameFlagsSameByte(hooks, s, t, k);
    }
  }

  // ---------------------------------------------------------------- what a batch counts

  /** How many hooks differ in their flag. */
  function Flipped(a: seq<bool>, b: seq<bool>): nat
    requires |a| == |b|
    decreases |a|
  {
    if a == [] then 0
    else Flipped(a[..|a| - 1], b[..|b| - 1]) + if a[|a| - 1] != b[|b| - 1] then 1 else 0
  }

  lemma {:induction false} FlippedOne(a: seq<bool>, b: seq<bool>, i: nat, on: bool)
    requires |a| == |b| && i < |a| && b[i] == a[i] != on
    ensures Flipped(a, b[i := on]) == Flipped(a, b) + 1
    decreases |a|
  {
    var n := |a| - 1;
    if i == n {
      assert b[i := on][..n] == b[..n];
    } else {
      assert b[i := on][..n] == b[..n][i := on];
      FlippedOne(a[..n], b[..n], i, on);
    }
  }

  lemma {:induction false} FlippedNone(a: seq<bool>)
    ensures Flipped(a, a) == 0
    decreases |a|
  {
    if a != [] {
      FlippedNone(a[..|a| - 1]);
    }
  }

  /** The listed hooks have the wanted flag, all others the one they had, and n flags are new. */
  predicate Counted(before: seq<bool>, after: seq<bool>, list: seq<Option<nat>>, on: bool, n: int) {
    && |after| == |before| && n == Flipped(before, after)
    && forall i :: 0 <= i < |before| ==> after[i] == (if Some(i) in list then on else before[i])
  }

  /** A batch flips exactly the listed hooks not yet in the wanted state, and returns how many those were. */
  lemma {:induction false} BatchCounts(hooks: seq<Hook>, s: State, list: seq<Option<nat>>, on: bool)
    requires Fits(hooks, s) && ValidList(hooks, list)
    ensures var r := Batch(hooks, s, list, on);
            Counted(s.installed, r.0.installed, list, on, r.1)
    decreases |list|
  {
    if list == [] {
      FlippedNone(s.installed);
    } else {
      var init, entry := list[..|list| - 1], list[|list| - 1];
      BatchCounts(hooks, s, init, on);
      assert list == init + [entry];
      var before := Batch(hooks, s, init, on).0;
      if entry.Some? && before.installed[entry.value] != on {
        FlippedOne(s.installed, before.installed, entry.value, on);
      }
    }
  }

  // ---------------------------------------------------------------- the operations

  /** The hooks of one program and the code they stand on. */
  class HookTable {
    const hooks: seq<Hook>
    const mem: array<byte>
    const installed: array<bool>

    ghost predicate Valid()
      reads this, mem, installed
    {
      Fits(hooks, View())
    }

    ghost function View(): State
      reads this, mem, installed
    {
      State(mem[..], installed[..])
    }

    /** `snare_inline_new` for each hook: nothing is installed, and the current bytes are the saved ones. */
    constructor (hooks: seq<Hook>, mem: array<byte>)
      requires Disjoint(hooks, mem.Length)
      requires forall i :: 0 <= i < |hooks| ==> BytesAt(mem[..], hooks[i].src) == hooks[i].saved
      ensures Valid() && fresh(installed) && this.mem == mem && this.hooks == hooks
      ensures View().mem == old(mem[..]) && Inv(hooks, View())
      ensures forall i :: 0 <= i < |hooks| ==> !View().installed[i]
    {
      this.hooks, this.mem := hooks, mem;
      this.installed := new bool[|hooks|](i => false);
    }

    method WriteBytes(i: nat, on: bool)
      requires Valid() && i < |hooks|
      modifies mem, installed
      ensures Valid() && View() == Flip(hooks, old(View()), i, on)
    {
      CopyInto(mem, hooks[i].src, if on then HookBytes(hooks[i]) else hooks[i].saved);
      installed[i] := on;
    }

    /** `snare_inline_install`. */
    method InstallHook(i: nat) returns (r: int)
      requires Valid() && i < |hooks|
      modifies mem, installed
      ensures Valid() && (View(), r) == Apply(hooks, old(View()), Install(i))
      ensures r == if old(!installed[i]) && hooks[i].trampoline then 0 else -22
      ensures r == 0 ==> Switched(hooks, old(View()), View(), i, true)
      ensures r != 0 ==> mem[..] == old(mem[..]) && installed[..] == old(installed[..])
    {
      if installed[i] {
        return -EINVAL;
      }
      if !hooks[i].trampoline {
        return -EINVAL;
      }
      FlipSwitches(hooks, View(), i, true);
      WriteBytes(i, true);
      r := 0;
    }

    /** `snare_inline_remove`. */
    method RemoveHook(i: nat) returns (r: int)
      requires Valid() && i < |hooks|
      modifies mem, installed
      ensures Valid() && (View(), r) == Apply(hooks, old(View()), Remove(i))
      ensures r == if old(installed[i]) then 0 else -22
      ensures r == 0 ==> Switched(hooks, old(View()), View(), i, false)
      ensures r != 0 ==> mem[..] == old(mem[..]) && installed[..] == old(installed[..])
    {
      if !installed[i] {
        return -EINVAL;
      }
      FlipSwitches(hooks, View(), i, false);
      WriteBytes(i, false);
      r := 0;
    }

    /** One turn of a batch loop; null entries and hooks already in the wanted state are passed over. */
    method BatchOne(entry: Option<nat>, on: bool) returns (changed: int)
      requires Valid() && (entry.Some? ==> entry.value < |hooks|)
      modifies mem, installed
      ensures Valid() && (View(), changed) == BatchStep(hooks, old(View()), entry, on)
    {
      changed := 0;
      if entry.Some? && installed[entry.value] != on {
        WriteBytes(entry.value, on);
        changed := 1;
      }
    }

    /** The loop of both batch functions. */
    method BatchLoop(list: seq<Option<nat>>, on: bool) returns (n: int)
      requires Valid() && ValidList(hooks, list)
      modifies mem, installed
      ensures Valid() && (View(), n) == Batch(hooks, old(View()), list, on)
    {
      n := 0;
      var k := 0;
      while k < |list|
        invariant k <= |list| && Valid()
        invariant (View(), n) == Batch(hooks, old(View()), list[..k], on)
      {
        ghost var s := View();
        var changed := BatchOne(list[k], on);
        BatchNext(hooks, old(View()), list, k, on, (s, n), (View(), changed));
        n, k := n + changed, k + 1;
      }
      assert list[..k] == list;
    }

    /** `snare_inline_install_batch`, and with `on` false `snare_inline_remove_batch`. */
    method BatchAll(list: seq<Option<nat>>, on: bool) returns (n: int)
      requires Valid() && ValidList(hooks, list)
      modifies mem, installed
      ensures Valid() && (View(), n) == Apply(hooks, old(View()), if on then InstallBatch(list) else RemoveBatch(list))
      ensures Counted(old(installed[..]), installed[..], list, on, n)
    {
      BatchCounts(hooks, View(), list, on);
      n := BatchLoop(list, on);
    }
  }

  // ---------------------------------------------------------------- instruction pointers

  /** The boundary an instruction pointer stands on, if any. */
  function BoundaryOf(ip: int, base: int, ips: seq<nat>, j: nat): Option<nat>
    requires j <= |ips|
    decreases |ips| - j
  {
    if j == |ips| then None else if ip == base + ips[j] then Some(j) else BoundaryOf(ip, base, ips, j + 1)
  }

  /** `snare_adjust_threads_ip` for one thread. */
  function MovedIp(ip: int, fromBase: int, toBase: int, fromIps: seq<nat>, toIps: seq<nat>): int
    requires |fromIps| == |toIps|
  {
    var b := BoundaryOf(ip, fromBase, fromIps, 0);
    if b.Some? && b.value < |toIps| then toBase + toIps[b.value] else ip
  }

  predicate Increasing(ips: seq<nat>) {
    forall i, j :: 0 <= i < j < |ips| ==> ips[i] < ips[j]
  }

  predicate OnBoundary(ip: int, base: int, ips: seq<nat>) {
    exists j :: 0 <= j < |ips| && ip == base + ips[j]
  }

  lemma {:induction false} BoundaryFound(ip: int, base: int, ips: seq<nat>, j: nat)
    requires j <= |ips|
    ensures match BoundaryOf(ip, base, ips, j)
            case Some(k) => j <= k < |ips| && ip == base + ips[k] && forall i :: j <= i < k ==> ip != base + ips[i]
            case None => forall i :: j <= i < |ips| ==> ip != base + ips[i]
    decreases |ips| - j
  {
    if j < |ips| && ip != base + ips[j] {
      BoundaryFound(ip, base, ips, j + 1);
    }
  }

  /** There and back is the identity on boundaries, and on every pointer that does not already stand in the trampoline. */
  lemma IpRoundTrip(ip: int, sbase: int, tbase: int, os: seq<nat>, ts: seq<nat>)
    requires |os| == |ts| && Increasing(os) && Increasing(ts)
    ensures MovedIp(MovedIp(ip, sbase, tbase, os, ts), tbase, sbase, ts, os) == ip
            <==> OnBoundary(ip, sbase, os) || !OnBoundary(ip, tbase, ts)
  {
    BoundaryFound(ip, sbase, os, 0);
    var there := MovedIp(ip, sbase, tbase, os, ts);
    BoundaryFound(there, tbase, ts, 0);
  }

  /** The two lists of a trampoline are fit for that. */
  lemma TrampolineIpRoundTrip(mem: seq<byte>, tbase: int, src: seq<byte>, sbase: int, os: seq<nat>, ts: seq<nat>, j: nat)
    requires Moved(mem, tbase, src, sbase, os, ts) && j < |os|
    ensures Increasing(os) && Increasing(ts)
    ensures MovedIp(sbase + os[j], sbase, tbase, os, ts) == tbase + ts[j]
    ensures MovedIp(tbase + ts[j], tbase, sbase, ts, os) == sbase + os[j]
  {
    forall a, b | 0 <= a < b < |os| ensures os[a] < os[b] && ts[a] < ts[b] {
      BoundariesIncrease(mem, tbase, src, sbase, os, ts, a, b);
    }
    BoundaryFound(sbase + os[j], sbase, os, 0);
    BoundaryFound(tbase + ts[j], tbase, ts, 0);
  }

  /** `snare_adjust_threads_ip` over all frozen threads. */
  method AdjustThreads(threads: array<int>, fromBase: int, toBase: int, fromIps: seq<nat>, toIps: seq<nat>)
    requires |fromIps| == |toIps|
    modifies threads
    ensures forall i :: 0 <= i < threads.Length ==>
              threads[i] == MovedIp(old(threads[i]), fromBase, toBase, fromIps, toIps)
  {
    for i := 0 to threads.Length
      invariant forall k :: 0 <= k < i ==> threads[k] == MovedIp(old(threads[k]), fromBase, toBase, fromIps, toIps)
      invariant forall k :: i <= k < threads.Length ==> threads[k] == old(threads[k])
    {
      var ip, j := threads[i], 0;
      BoundaryFound(ip, fromBase, fromIps, 0);
      while j < |fromIps|
        invariant j <= |fromIps| && BoundaryOf(ip, fromBase, fromIps, j) == BoundaryOf(ip, fromBase, fromIps, 0)
        invariant threads[i] == ip
        invariant forall k :: 0 <= k < i ==> threads[k] == MovedIp(old(threads[k]), fromBase, toBase, fromIps, toIps)
        invariant forall k :: i <= k < threads.Length ==> threads[k] == old(threads[k])
      {
        if ip == fromBase + fromIps[j] {
          threads[i] := toBase + toIps[j];
          break;
        }
        j := j + 1;
      }
    }
  }
}
