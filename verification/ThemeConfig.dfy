/**
  The theme settings kept in the configuration (src/bindings/theme_cfg.cc): every change
  of the configuration runs a handler that repairs them by further changes, each of which
  runs the handler again.
 */
module ThemeConfig {
  import opened Wrappers
  import opened JsonValue
  import opened Config

  // ---------------------------------------------------------------- themes and their settings

  /** The `default` of a condition, where it is a string or a number. */
  datatype Stated = Text(text: string) | Number(number: int)

  /** A condition of a theme: a slider with its stated default and its minimum, or values in key order. */
  datatype Condition =
    | Slider(stated: Option<Stated>, min: Option<int>)
    | Choice(values: seq<string>, preferred: Option<string>)
    | Malformed

  datatype Theme = Theme(native: string, conditions: seq<(string, Condition)>)

  /** One stored setting the handler looks after. */
  datatype Setting =
    | Active
    | Conditions
    | Pick(theme: string, name: string, condition: Condition)

  function PathOf(s: Setting): (p: Path)
    ensures p != []
  {
    match s
    case Active => ["themes", "activeTheme"]
    case Conditions => ["themes", "conditions"]
    case Pick(theme, name, _) => ["themes", "conditions", theme, name]
  }

  function Digit(d: int): (c: char)
    requires 0 <= d < 10
    ensures '0' <= c <= '9' && c as int - '0' as int == d
  {
    '0' + d as char
  }

  function Digits(n: nat): string {
    if n < 10 then [Digit(n)] else Digits(n / 10) + [Digit(n % 10)]
  }

  /** `std::to_string` of an `int`. */
  function Decimal(n: int): string {
    if n < 0 then ['-'] + Digits(-n) else Digits(n)
  }

  /** The number that a string of digits stands for. */
  function Worth(text: string): int {
    if text == [] then 0 else 10 * Worth(text[..|text| - 1]) + (text[|text| - 1] as int - '0' as int)
  }

  /** The decimal is digits, with a sign in front of a negative number, and worth the number. */
  lemma {:induction false} DigitsAreWorth(n: nat)
    ensures Digits(n) != [] && Worth(Digits(n)) == n && forall c :: c in Digits(n) ==> '0' <= c <= '9'
    decreases n
  {
    if n >= 10 {
      DigitsAreWorth(n / 10);
      var text := Digits(n / 10) + [Digit(n % 10)];
      assert text[..|text| - 1] == Digits(n / 10);
    }
  }

  lemma DecimalIsWorth(n: int)
    ensures n >= 0 ==> Worth(Decimal(n)) == n
    ensures n < 0 ==> Decimal(n)[0] == '-' && Worth(Decimal(n)[1..]) == -n
  {
    DigitsAreWorth(if n < 0 then -n else n);
    if n < 0 {
      assert Decimal(n)[1..] == Digits(-n);
    }
  }

  function Fallback(c: Condition): string {
    match c
    case Slider(stated, min) =>
      if stated.Some? then (if stated.value.Text? then stated.value.text else Decimal(stated.value.number))
      else if min.Some? then Decimal(min.value) else "0"
    case Choice(values, preferred) =>
      if preferred.Some? && preferred.value in values then preferred.value
      else if values != [] then values[0] else ""
    case Malformed => ""
  }

  function DefaultOf(s: Setting): Json {
    match s
    case Active => Str("default")
    case Conditions => Obj(map[])
    case Pick(_, _, c) => Str(Fallback(c))
  }

  /** A slider holds a string, a choice one of its values, and the active theme exists. */
  predicate Valid(known: set<string>, s: Setting, t: Tree) {
    var v := At(t, PathOf(s));
    match s
    case Active => v.Some? && v.value.Str? && (v.value.s == "default" || v.value.s in known)
    case Conditions => v.None? || v.value.Obj?
    case Pick(_, _, c) => v.Some? && v.value.Str? && (c.Choice? ==> v.value.s in c.values)
  }

  /** A choice with no values is not well-typed: the handler skips those as malformed. */
  predicate WellTyped(s: Setting) {
    s.Pick? ==> !s.condition.Malformed? && (s.condition.Choice? ==> s.condition.values != [])
  }

  function Picks(native: string, conditions: seq<(string, Condition)>): seq<Setting>
    decreases |conditions|
  {
    if conditions == [] then []
    else
      var c := conditions[|conditions| - 1];
      Picks(native, conditions[..|conditions| - 1]) + if c.1.Malformed? then [] else [Pick(native, c.0, c.1)]
  }

  function AllPicks(themes: seq<Theme>): seq<Setting>
    decreases |themes|
  {
    if themes == [] then []
    else
      var theme := themes[|themes| - 1];
      AllPicks(themes[..|themes| - 1]) + Picks(theme.native, theme.conditions)
  }

  /** In the order the handler visits them. */
  function Settings(themes: seq<Theme>): seq<Setting> {
    [Active, Conditions] + AllPicks(themes)
  }

  /** Settings live at paths of their own and are well-typed. */
  predicate Distinct(list: seq<Setting>) {
    && (forall i :: 0 <= i < |list| ==> WellTyped(list[i]))
    && (forall i, j :: 0 <= i < j < |list| ==> PathOf(list[i]) != PathOf(list[j]))
  }

  // ---------------------------------------------------------------- repairing, once through

  /** The stored tree and the changes announced so far. */
  datatype Cfg = Cfg(data: Tree, notes: seq<Note>)

  function Changed(c: Cfg, s: Setting): Cfg {
    Cfg(SetAt(c.data, PathOf(s), DefaultOf(s)), c.notes + [Note(PathOf(s), DefaultOf(s))])
  }

  function Repaired(known: set<string>, s: Setting, c: Cfg): Cfg {
    if Valid(known, s, c.data) then c else Changed(c, s)
  }

  /** The settings taken one after another, with no handler running in between. */
  function RepairedAll(known: set<string>, list: seq<Setting>, c: Cfg): Cfg
    decreases |list|
  {
    if list == [] then c
    else Repaired(known, list[|list| - 1], RepairedAll(known, list[..|list| - 1], c))
  }

  predicate AllValid(known: set<string>, list: seq<Setting>, t: Tree) {
    forall i :: 0 <= i < |list| ==> Valid(known, list[i], t)
  }

  lemma RepairMakesValid(known: set<string>, s: Setting, c: Cfg)
    requires WellTyped(s)
    ensures Valid(known, s, Repaired(known, s, c).data)
  {
    GetAfterSet(c.data, PathOf(s), DefaultOf(s));
  }

  /** How two different settings can lie to each other. */
  lemma PathsApart(a: Setting, b: Setting)
    requires PathOf(a) != PathOf(b)
    ensures Incomparable(PathOf(b), PathOf(a))
            || (a.Conditions? && b.Pick? && PathOf(a) < PathOf(b))
            || (a.Pick? && b.Conditions? && PathOf(b) < PathOf(a))
  {
    var p, q := PathOf(a), PathOf(b);
    assert p[0] == q[0] == "themes";
    if a.Active? || b.Active? {
      assert p[1] != q[1];
    } else if a.Pick? && b.Pick? {
      assert p[2] != q[2] || p[3] != q[3];
    }
  }

  /** Where the conditions are no object, no condition can be read. */
  lemma NoPickWithoutObject(known: set<string>, s: Setting, t: Tree)
    requires s.Pick? && !Valid(known, Conditions, t)
    ensures !Valid(known, s, t)
  {
    var p := PathOf(s);
    LookupSplit(Obj(t), p, 2);
    assert p[..2] == PathOf(Conditions);
    LookupStep(At(t, p[..2]).value, p[2..]);
  }

  lemma {:induction false} LookupSplit(j: Json, p: Path, n: nat)
    requires n <= |p|
    ensures Lookup(j, p) == if Lookup(j, p[..n]).Some? then Lookup(Lookup(j, p[..n]).value, p[n..]) else None
    decreases |p|
  {
    if n == 0 {
      assert p[n..] == p;
    } else {
      LookupStep(j, p);
      LookupStep(j, p[..n]);
      assert p[..n][1..] == p[1..][..n - 1] && p[1..][n - 1..] == p[n..];
      if j.Obj? && p[0] in j.fields {
        LookupSplit(j.fields[p[0]], p[1..], n - 1);
      }
    }
  }

  /** Repairing one setting leaves every other valid one valid, with the very same value. */
  lemma RepairKeepsOthers(known: set<string>, a: Setting, b: Setting, c: Cfg)
    requires PathOf(a) != PathOf(b) && Valid(known, a, c.data)
    ensures Valid(known, a, Repaired(known, b, c).data)
    ensures !a.Conditions? ==> At(Repaired(known, b, c).data, PathOf(a)) == At(c.data, PathOf(a))
  {
    PathsApart(a, b);
    if !Valid(known, b, c.data) {
      if Incomparable(PathOf(b), PathOf(a)) {
        SetKeepsOthers(c.data, PathOf(b), DefaultOf(b), PathOf(a));
      } else if a.Conditions? {
        SetMakesObjects(c.data, PathOf(b), DefaultOf(b), PathOf(a));
      } else {
        NoPickWithoutObject(known, a, c.data);
      }
    }
  }

  /** A valid setting stays as it is through all repairs. */
  lemma {:induction false} ValidIsKept(known: set<string>, list: seq<Setting>, c: Cfg, s: Setting)
    requires Valid(known, s, c.data)
    requires forall i :: 0 <= i < |list| ==> list[i] == s || PathOf(list[i]) != PathOf(s)
    ensures Valid(known, s, RepairedAll(known, list, c).data)
    ensures !s.Conditions? ==> At(RepairedAll(known, list, c).data, PathOf(s)) == At(c.data, PathOf(s))
    decreases |list|
  {
    if list != [] {
      var n := |list| - 1;
      ValidIsKept(known, list[..n], c, s);
      if list[n] != s {
        RepairKeepsOthers(known, s, list[n], RepairedAll(known, list[..n], c));
      }
    }
  }

  /** After the repairs every setting is valid. */
  lemma {:induction false} AllRepaired(known: set<string>, list: seq<Setting>, c: Cfg)
    requires Distinct(list)
    ensures AllValid(known, list, RepairedAll(known, list, c).data)
    decreases |list|
  {
    if list != [] {
      var n := |list| - 1;
      var before := RepairedAll(known, list[..n], c);
      AllRepaired(known, list[..n], c);
      RepairMakesValid(known, list[n], before);
      forall i | 0 <= i < n ensures Valid(known, list[i], Repaired(known, list[n], before).data) {
        assert list[..n][i] == list[i];
        RepairKeepsOthers(known, list[i], list[n], before);
      }
    }
  }

  /** Where all is valid there is nothing to repair. */
  lemma {:induction false} NothingToRepair(known: set<string>, list: seq<Setting>, c: Cfg)
    requires AllValid(known, list, c.data)
    ensures RepairedAll(known, list, c) == c
    decreases |list|
  {
    if list != [] {
      NothingToRepair(known, list[..|list| - 1], c);
    }
  }

  lemma SplitLast(a: seq<Setting>, b: seq<Setting>)
    requires b != []
    ensures (a + b)[..|a + b| - 1] == a + b[..|b| - 1] && (a + b)[|a + b| - 1] == b[|b| - 1]
  {
  }

  lemma {:induction false} RepairInTwo(known: set<string>, a: seq<Setting>, b: seq<Setting>, both: seq<Setting>, c: Cfg)
    requires both == a + b
    ensures RepairedAll(known, both, c) == RepairedAll(known, b, RepairedAll(known, a, c))
    decreases |b|
  {
    if b == [] {
      assert both == a;
    } else {
      var init := b[..|b| - 1];
      SplitLast(a, b);
      RepairInTwo(known, a, init, both[..|both| - 1], c);
    }
  }

  /** Starting over after the first repairs comes to the same. */
  lemma StartingOver(known: set<string>, a: seq<Setting>, b: seq<Setting>, c: Cfg)
    requires Distinct(a + b)
    ensures RepairedAll(known, a + b, RepairedAll(known, a, c)) == RepairedAll(known, a + b, c)
  {
    var mid := RepairedAll(known, a, c);
    assert a == (a + b)[..|a|];
    assert Distinct(a) by {
      assert forall i :: 0 <= i < |a| ==> a[i] == (a + b)[i];
    }
    AllRepaired(known, a, c);
    NothingToRepair(known, a, mid);
    RepairInTwo(known, a, b, a + b, mid);
    RepairInTwo(known, a, b, a + b, c);
  }

  // ---------------------------------------------------------------- the measure

  /** How many stored settings are invalid. */
  function Invalid(known: set<string>, list: seq<Setting>, t: Tree): nat
    decreases |list|
  {
    if list == [] then 0
    else Invalid(known, list[..|list| - 1], t) + if Valid(known, list[|list| - 1], t) then 0 else 1
  }

  /** Repairing one setting makes no other invalid, and that one valid. */
  lemma ChangedKeeps(known: set<string>, x: Setting, s: Setting, c: Cfg)
    requires WellTyped(s) && !Valid(known, s, c.data) && (x == s || PathOf(x) != PathOf(s))
    ensures x == s || Valid(known, x, c.data) ==> Valid(known, x, Changed(c, s).data)
  {
    if x == s {
      RepairMakesValid(known, s, c);
    } else if Valid(known, x, c.data) {
      RepairKeepsOthers(known, x, s, c);
    }
  }

  lemma {:induction false} InvalidDrops(known: set<string>, list: seq<Setting>, s: Setting, c: Cfg, t: Tree)
    requires WellTyped(s) && !Valid(known, s, c.data) && t == Changed(c, s).data
    requires forall i :: 0 <= i < |list| ==> list[i] == s || PathOf(list[i]) != PathOf(s)
    ensures Invalid(known, list, t) <= Invalid(known, list, c.data)
    ensures s in list ==> Invalid(known, list, t) < Invalid(known, list, c.data)
    decreases |list|
  {
    if list != [] {
      var n := |list| - 1;
      InvalidDrops(known, list[..n], s, c, t);
      assert list == list[..n] + [list[n]];
      ChangedKeeps(known, list[n], s, c);
    }
  }

  /** Repairing some settings leaves no more invalid ones than before. */
  lemma {:induction false} InvalidNeverGrows(known: set<string>, list: seq<Setting>, some: seq<Setting>, c: Cfg)
    requires Distinct(list) && some <= list
    ensures Invalid(known, list, RepairedAll(known, some, c).data) <= Invalid(known, list, c.data)
    decreases |some|
  {
    if some != [] {
      var n := |some| - 1;
      InvalidNeverGrows(known, list, some[..n], c);
      var before := RepairedAll(known, some[..n], c);
      assert some[n] == list[n];
      if !Valid(known, some[n], before.data) {
        InvalidDrops(known, list, some[n], before, Changed(before, some[n]).data);
      }
    }
  }

  // ---------------------------------------------------------------- themes on disk

  /** Directory names differ, condition names differ within a theme, and choices offer something. */
  predicate WellFormed(themes: seq<Theme>) {
    && (forall i, j :: 0 <= i < j < |themes| ==> themes[i].native != themes[j].native)
    && (forall i :: 0 <= i < |themes| ==> WellFormedConditions(themes[i].conditions))
  }

  predicate WellFormedConditions(cs: seq<(string, Condition)>) {
    && (forall i, j :: 0 <= i < j < |cs| ==> cs[i].0 != cs[j].0)
    && (forall i :: 0 <= i < |cs| && cs[i].1.Choice? ==> cs[i].1.values != [])
  }

  lemma {:induction false} PicksOfTheme(native: string, cs: seq<(string, Condition)>)
    requires WellFormedConditions(cs)
    ensures Distinct(Picks(native, cs))
    ensures forall s :: s in Picks(native, cs) ==>
              s.Pick? && s.theme == native && exists k :: 0 <= k < |cs| && cs[k].0 == s.name
    decreases |cs|
  {
    if cs != [] {
      var n := |cs| - 1;
      PicksOfTheme(native, cs[..n]);
      var before := Picks(native, cs[..n]);
      forall s | s in before ensures exists k :: 0 <= k < n && cs[k].0 == s.name {
        var k :| 0 <= k < n && cs[..n][k].0 == s.name;
        assert cs[k].0 == s.name;
      }
      if !cs[n].1.Malformed? {
        var last := Pick(native, cs[n].0, cs[n].1);
        assert Picks(native, cs) == before + [last];
        forall i | 0 <= i < |before| ensures PathOf(before[i]) != PathOf(last) {
          assert before[i] in before;
          assert PathOf(before[i])[3] != PathOf(last)[3];
        }
        assert cs[n].0 == last.name;
      }
    }
  }

  lemma {:induction false} PicksOfThemes(themes: seq<Theme>)
    requires WellFormed(themes)
    ensures Distinct(AllPicks(themes))
    ensures forall s :: s in AllPicks(themes) ==>
              s.Pick? && exists k :: 0 <= k < |themes| && themes[k].native == s.theme
    decreases |themes|
  {
    if themes != [] {
      var n := |themes| - 1;
      PicksOfThemes(themes[..n]);
      var before, last := AllPicks(themes[..n]), Picks(themes[n].native, themes[n].conditions);
      PicksOfTheme(themes[n].native, themes[n].conditions);
      forall s | s in before ensures exists k :: 0 <= k < n && themes[k].native == s.theme {
        var k :| 0 <= k < n && themes[..n][k].native == s.theme;
        assert themes[k].native == s.theme;
      }
      forall i, j | 0 <= i < |before| && 0 <= j < |last| ensures PathOf(before[i]) != PathOf(last[j]) {
        assert before[i] in before && last[j] in last;
        assert PathOf(before[i])[2] != PathOf(last[j])[2];
      }
      assert AllPicks(themes) == before + last;
    }
  }

  lemma SettingsDistinct(themes: seq<Theme>)
    requires WellFormed(themes)
    ensures Distinct(Settings(themes))
  {
    PicksOfThemes(themes);
    var all, picks := Settings(themes), AllPicks(themes);
    forall i, j | 0 <= i < j < |all| ensures PathOf(all[i]) != PathOf(all[j]) {
      if j == 1 {
        assert PathOf(all[0])[1] != PathOf(all[1])[1];
      } else {
        assert all[j] == picks[j - 2] && picks[j - 2] in picks;
        if i < 2 {
          assert |PathOf(all[i])| == 2 && |PathOf(all[j])| == 4;
        } else {
          assert all[i] == picks[i - 2];
        }
      }
    }
    forall i | 0 <= i < |all| ensures WellTyped(all[i]) {
      if i >= 2 {
        assert all[i] == picks[i - 2];
      }
    }
  }

  // ---------------------------------------------------------------- the handler

  /** The stored active theme is neither null nor a string: reading it as one throws. */
  predicate Throws(t: Tree) {
    var v := At(t, PathOf(Active));
    v.Some? && v.value != Null && !v.value.Str?
  }

  /** What the handler leaves: nothing done where it throws, and otherwise every setting repaired. */
  function Settled(known: set<string>, all: seq<Setting>, c: Cfg): Cfg {
    if Throws(c.data) then c else RepairedAll(known, all, c)
  }

  /** What a propagating `set` leaves, handler included. */
  function AfterSet(known: set<string>, all: seq<Setting>, c: Cfg, path: Path, v: Json): Cfg
    requires path != []
  {
    var t := SetAt(c.data, path, v);
    if OldValue(c.data, path) == v then Cfg(t, c.notes)
    else Settled(known, all, Cfg(t, c.notes + [Note(path, v)]))
  }

  /** Up to some setting, or already right through. */
  predicate Progress(known: set<string>, all: seq<Setting>, done: seq<Setting>, c0: Cfg, c: Cfg) {
    c == RepairedAll(known, done, c0) || c == RepairedAll(known, all, c0)
  }

  lemma RepairIsAChange(known: set<string>, s: Setting, c: Cfg)
    requires !Valid(known, s, c.data) && WellTyped(s)
    ensures OldValue(c.data, PathOf(s)) != DefaultOf(s)
  {
  }

  /** A string at the active theme does not throw. */
  lemma NoThrow(known: set<string>, done: seq<Setting>, s: Setting, all: seq<Setting>, c0: Cfg)
    requires Distinct(all) && done + [s] <= all && all[0] == Active
    ensures !Throws(RepairedAll(known, done + [s], c0).data)
  {
    var part := done + [s];
    assert forall i :: 0 <= i < |part| ==> part[i] == all[i];
    AllRepaired(known, part, c0);
    assert Valid(known, part[0], RepairedAll(known, part, c0).data);
  }

  /** A repair in the middle runs the handler, which finishes the job. */
  lemma RepairFinishes(known: set<string>, all: seq<Setting>, done: seq<Setting>, s: Setting, c0: Cfg)
    requires Distinct(all) && done + [s] <= all && all[0] == Active
    requires !Valid(known, s, RepairedAll(known, done, c0).data)
    ensures AfterSet(known, all, RepairedAll(known, done, c0), PathOf(s), DefaultOf(s)) == RepairedAll(known, all, c0)
  {
    var c, part := RepairedAll(known, done, c0), done + [s];
    assert s == all[|done|];
    RepairIsAChange(known, s, c);
    assert part[..|done|] == done;
    assert RepairedAll(known, part, c0) == Changed(c, s);
    NoThrow(known, done, s, all, c0);
    assert all == part + all[|part|..];
    StartingOver(known, part, all[|part|..], c0);
  }

  /** A setting found valid is passed over. */
  lemma ValidIsPassed(known: set<string>, all: seq<Setting>, done: seq<Setting>, s: Setting, c0: Cfg, c: Cfg)
    requires Progress(known, all, done, c0, c) && Valid(known, s, c.data)
    ensures Progress(known, all, done + [s], c0, c)
  {
    assert (done + [s])[..|done|] == done;
  }

  /** An invalid one is met only where the repairs have come just that far. */
  lemma InvalidIsNext(known: set<string>, all: seq<Setting>, done: seq<Setting>, s: Setting, c0: Cfg, c: Cfg)
    requires Distinct(all) && done + [s] <= all
    requires Progress(known, all, done, c0, c) && !Valid(known, s, c.data)
    ensures c == RepairedAll(known, done, c0)
    ensures Invalid(known, all, Changed(c, s).data) < Invalid(known, all, c.data)
  {
    assert s == all[|done|];
    AllRepaired(known, all, c0);
    forall i | 0 <= i < |all| ensures all[i] == s || PathOf(all[i]) != PathOf(s) {
    }
    InvalidDrops(known, all, s, c, Changed(c, s).data);
  }

  /** The conditions of one theme, as the handler reads them. */
  lemma ReadsPick(t: Tree, s: Setting)
    requires s.Pick?
    ensures var cs := At(t, ["themes", "conditions", s.theme]);
            At(t, PathOf(s)) == if cs.Some? && cs.value.Obj? && s.name in cs.value.fields
                                then Some(cs.value.fields[s.name]) else None
  {
    var p := PathOf(s);
    LookupSplit(Obj(t), p, 3);
    assert p[..3] == ["themes", "conditions", s.theme] && p[3..] == [s.name];
    var cs := At(t, p[..3]);
    if cs.Some? {
      LookupStep(cs.value, p[3..]);
    }
  }

  /** The settings met before theme i. */
  function Before(themes: seq<Theme>, i: nat): seq<Setting>
    requires i <= |themes|
  {
    [Active, Conditions] + AllPicks(themes[..i])
  }

  /** The settings met before condition j of theme i. */
  function Upto(themes: seq<Theme>, i: nat, j: nat): seq<Setting>
    requires i < |themes| && j <= |themes[i].conditions|
  {
    Before(themes, i) + Picks(themes[i].native, themes[i].conditions[..j])
  }

  lemma UptoIsPrefix(themes: seq<Theme>, i: nat, j: nat)
    requires i < |themes| && j <= |themes[i].conditions|
    ensures Upto(themes, i, j) <= Settings(themes)
  {
    PicksPrefix(themes[i].native, themes[i].conditions, j);
    AllPicksPrefix(themes, i + 1);
    assert themes[..i + 1][..i] == themes[..i];
  }

  lemma UptoStep(themes: seq<Theme>, i: nat, j: nat)
    requires i < |themes| && j < |themes[i].conditions|
    ensures var c := themes[i].conditions[j];
            Upto(themes, i, j + 1)
            == if c.1.Malformed? then Upto(themes, i, j) else Upto(themes, i, j) + [Pick(themes[i].native, c.0, c.1)]
  {
    var cs := themes[i].conditions;
    assert cs[..j + 1][..j] == cs[..j];
  }

  lemma UptoEnds(themes: seq<Theme>, i: nat)
    requires i < |themes|
    ensures Upto(themes, i, 0) == Before(themes, i)
    ensures Upto(themes, i, |themes[i].conditions|) == Before(themes, i + 1)
  {
    var cs := themes[i].conditions;
    assert cs[..|cs|] == cs && themes[..i + 1][..i] == themes[..i];
  }

  lemma {:induction false} PicksPrefix(native: string, cs: seq<(string, Condition)>, j: nat)
    requires j <= |cs|
    ensures Picks(native, cs[..j]) <= Picks(native, cs)
    decreases |cs|
  {
    if j == |cs| {
      assert cs[..j] == cs;
    } else {
      assert cs[..|cs| - 1][..j] == cs[..j];
      PicksPrefix(native, cs[..|cs| - 1], j);
    }
  }

  lemma {:induction false} AllPicksPrefix(themes: seq<Theme>, i: nat)
    requires i <= |themes|
    ensures AllPicks(themes[..i]) <= AllPicks(themes)
    decreases |themes|
  {
    if i == |themes| {
      assert themes[..i] == themes;
    } else {
      assert themes[..|themes| - 1][..i] == themes[..i];
      AllPicksPrefix(themes[..|themes| - 1], i);
    }
  }

  lemma ProgressBounds(known: set<string>, all: seq<Setting>, done: seq<Setting>, c0: Cfg, c: Cfg)
    requires Distinct(all) && done <= all && Progress(known, all, done, c0, c)
    ensures Invalid(known, all, c.data) <= Invalid(known, all, c0.data)
  {
    InvalidNeverGrows(known, all, done, c0);
    InvalidNeverGrows(known, all, all, c0);
  }

  /** `theme_config_store` with the configuration it listens to; `known` are the themes that exist on disk. */
  class Store {
    const config: Manager
    const known: set<string>
    const themes: seq<Theme>

    constructor (config: Manager, known: set<string>, themes: seq<Theme>)
      ensures this.config == config && this.known == known && this.themes == themes
    {
      this.config, this.known, this.themes := config, known, themes;
    }

    ghost function All(): seq<Setting> {
      Settings(themes)
    }

    ghost function View(): Cfg
      reads config
    {
      Cfg(config.data, config.notes)
    }

    ghost function Left(t: Tree): nat {
      Invalid(known, All(), t)
    }

    /** `config_manager::set` with this store as its listener, exceptions of the handler caught. */
    method Set(path: Path, value: Json)
      requires path != [] && WellFormed(themes)
      modifies config`data, config`notes
      ensures View() == AfterSet(known, All(), old(View()), path, value)
      decreases Left(SetAt(config.data, path, value)), 6
    {
      var oldValue := config.Assign(path, value);
      if oldValue != value {
        config.notes := config.notes + [Note(path, value)];
        var _ := OnConfigChange();
      }
    }

    /** `on_config_change_hdlr`. */
    method OnConfigChange() returns (threw: bool)
      requires WellFormed(themes)
      modifies config`data, config`notes
      ensures threw == Throws(old(config.data))
      ensures View() == Settled(known, All(), old(View()))
      decreases Left(config.data), 5
    {
      SettingsDistinct(themes);
      ghost var c0 := View();
      threw := ValidateTheme();
      if threw {
        return;
      }
      SetupConditionals(c0);
    }

    /** One repair while the handler runs, if the setting needs it. */
    method Repair(s: Setting, ghost done: seq<Setting>, ghost c0: Cfg)
      requires WellFormed(themes) && done + [s] <= All()
      requires Progress(known, All(), done, c0, View()) && !Valid(known, s, config.data)
      modifies config`data, config`notes
      ensures View() == RepairedAll(known, All(), c0)
      decreases Left(config.data), 0
    {
      SettingsDistinct(themes);
      InvalidIsNext(known, All(), done, s, c0, View());
      RepairFinishes(known, All(), done, s, c0);
      Set(PathOf(s), DefaultOf(s));
    }

    /** `validate_theme`. */
    method ValidateTheme() returns (threw: bool)
      requires WellFormed(themes)
      modifies config`data, config`notes
      ensures threw == Throws(old(config.data))
      ensures threw ==> View() == old(View())
      ensures !threw ==> Progress(known, All(), [Active], old(View()), View())
      decreases Left(config.data), 1
    {
      SettingsDistinct(themes);
      ghost var c0 := View();
      var active := config.Get(PathOf(Active), Null);
      if active == Null {
        Repair(Active, [], c0);
        AllRepaired(known, All(), c0);
        assert Valid(known, All()[0], config.data);
      }
      active := config.Get(PathOf(Active), Null);
      if !active.Str? {
        return true;
      }
      if active.s != "default" && active.s !in known {
        Repair(Active, [], c0);
      } else {
        ValidIsPassed(known, All(), [], Active, c0, View());
        assert [] + [Active] == [Active];
      }
      return false;
    }

    /** One condition in `setup_conditionals`. */
    method VisitCondition(s: Setting, ghost done: seq<Setting>, ghost c0: Cfg)
      requires WellFormed(themes) && s.Pick? && WellTyped(s) && done + [s] <= All()
      requires Progress(known, All(), done, c0, View())
      modifies config`data, config`notes
      ensures Progress(known, All(), done + [s], c0, View())
      decreases Left(config.data), 1
    {
      var current := config.Get(["themes", "conditions", s.theme], Obj(map[]));
      ReadsPick(config.data, s);
      if !current.Obj? || s.name !in current.fields || !current.fields[s.name].Str? {
        Repair(s, done, c0);
        return;
      }
      if s.condition.Choice? && current.fields[s.name].s !in s.condition.values {
        Repair(s, done, c0);
        return;
      }
      ValidIsPassed(known, All(), done, s, c0, View());
    }

    /** Condition j of theme i. */
    method SetupCondition(i: nat, j: nat, ghost c0: Cfg)
      requires WellFormed(themes) && i < |themes| && j < |themes[i].conditions|
      requires Progress(known, All(), Upto(themes, i, j), c0, View())
      modifies config`data, config`notes
      ensures Progress(known, All(), Upto(themes, i, j + 1), c0, View())
      decreases Left(c0.data), 2
    {
      var condition := themes[i].conditions[j];
      SettingsDistinct(themes);
      UptoIsPrefix(themes, i, j);
      UptoIsPrefix(themes, i, j + 1);
      UptoStep(themes, i, j);
      if !condition.1.Malformed? {
        ProgressBounds(known, All(), Upto(themes, i, j), c0, View());
        VisitCondition(Pick(themes[i].native, condition.0, condition.1), Upto(themes, i, j), c0);
      }
    }

    /** The conditions of theme i in `setup_conditionals`. */
    method SetupTheme(i: nat, ghost c0: Cfg)
      requires WellFormed(themes) && i < |themes|
      requires Progress(known, All(), Before(themes, i), c0, View())
      modifies config`data, config`notes
      ensures Progress(known, All(), Before(themes, i + 1), c0, View())
      decreases Left(c0.data), 3
    {
      UptoEnds(themes, i);
      var j := 0;
      while j < |themes[i].conditions|
        invariant j <= |themes[i].conditions|
        invariant Progress(known, All(), Upto(themes, i, j), c0, View())
      {
        SetupCondition(i, j, c0);
        j := j + 1;
      }
    }

    /** The conditions are an object, before any of them is looked at. */
    method SetupObject(ghost c0: Cfg)
      requires WellFormed(themes)
      requires Progress(known, All(), [Active], c0, View())
      modifies config`data, config`notes
      ensures Progress(known, All(), [Active, Conditions], c0, View())
      decreases Left(c0.data), 2
    {
      SettingsDistinct(themes);
      ProgressBounds(known, All(), [Active], c0, View());
      var conditions := config.Get(PathOf(Conditions), Obj(map[]));
      assert [Active] + [Conditions] == [Active, Conditions];
      if !conditions.Obj? {
        Repair(Conditions, [Active], c0);
      } else {
        ValidIsPassed(known, All(), [Active], Conditions, c0, View());
      }
    }

    /** `setup_conditionals`, reached with the active theme settled. */
    method SetupConditionals(ghost c0: Cfg)
      requires WellFormed(themes)
      requires Progress(known, All(), [Active], c0, View())
      modifies config`data, config`notes
      ensures View() == RepairedAll(known, All(), c0)
      decreases Left(c0.data), 4
    {
      SetupObject(c0);
      var i := 0;
      assert Before(themes, 0) == [Active, Conditions];
      while i < |themes|
        invariant i <= |themes|
        invariant Progress(known, All(), Before(themes, i), c0, View())
      {
        SetupTheme(i, c0);
        i := i + 1;
      }
      assert themes[..i] == themes;
    }
  }

  // ---------------------------------------------------------------- what the handler is worth

  /**
    Run on any stored tree, the handler makes every setting valid exactly when it does not
    throw; what was valid keeps its value; and a second run changes and announces nothing.
   */
  lemma HandlerSettles(known: set<string>, themes: seq<Theme>, c: Cfg)
    requires WellFormed(themes)
    ensures var all := Settings(themes);
            var r := Settled(known, all, c);
            && (AllValid(known, all, r.data) <==> !Throws(c.data))
            && (Throws(c.data) ==> r == c)
            && Settled(known, all, r) == r
            && forall s :: s in all && Valid(known, s, c.data) ==>
                 Valid(known, s, r.data) && (s.Conditions? || At(r.data, PathOf(s)) == At(c.data, PathOf(s)))
  {
    var all := Settings(themes);
    var r := Settled(known, all, c);
    SettingsDistinct(themes);
    if Throws(c.data) {
      assert all[0] == Active && !Valid(known, all[0], r.data);
    } else {
      AllRepaired(known, all, c);
      assert Valid(known, all[0], r.data);
      NothingToRepair(known, all, r);
      forall s | s in all && Valid(known, s, c.data)
        ensures Valid(known, s, r.data) && (s.Conditions? || At(r.data, PathOf(s)) == At(c.data, PathOf(s)))
      {
        var k :| 0 <= k < |all| && all[k] == s;
        ValidIsKept(known, all, c, s);
      }
    }
  }

  /** An invalid setting is not made valid by repairing another one, but for the conditions object. */
  lemma InvalidStays(known: set<string>, a: Setting, b: Setting, c: Cfg)
    requires PathOf(a) != PathOf(b) && !Valid(known, a, c.data) && !a.Conditions?
    ensures !Valid(known, a, Repaired(known, b, c).data)
  {
    PathsApart(a, b);
    if !Valid(known, b, c.data) {
      if Incomparable(PathOf(b), PathOf(a)) {
        SetKeepsOthers(c.data, PathOf(b), DefaultOf(b), PathOf(a));
      } else {
        var t, p := Changed(c, b).data, PathOf(a);
        GetAfterSet(c.data, PathOf(b), DefaultOf(b));
        LookupSplit(Obj(t), p, 2);
        assert p[..2] == PathOf(b) && p[2..] == [a.theme, a.name];
        LookupStep(Obj(map[]), p[2..]);
      }
    }
  }

  lemma {:induction false} InvalidWaits(known: set<string>, list: seq<Setting>, c: Cfg, s: Setting)
    requires !Valid(known, s, c.data) && !s.Conditions?
    requires forall i :: 0 <= i < |list| ==> PathOf(list[i]) != PathOf(s)
    ensures !Valid(known, s, RepairedAll(known, list, c).data)
    decreases |list|
  {
    if list != [] {
      var n := |list| - 1;
      InvalidWaits(known, list[..n], c, s);
      InvalidStays(known, s, list[n], RepairedAll(known, list[..n], c));
    }
  }

  /** The repairs before one setting, its own, and those after it. */
  lemma InThree(known: set<string>, list: seq<Setting>, c: Cfg, m: nat)
    requires m < |list|
    ensures RepairedAll(known, list, c)
            == RepairedAll(known, list[m + 1..], Repaired(known, list[m], RepairedAll(known, list[..m], c)))
  {
    var some := list[..m + 1];
    assert some[..m] == list[..m] && some + list[m + 1..] == list;
    RepairInTwo(known, some, list[m + 1..], list, c);
  }

  /** A setting reads as before where it was valid, and else as its default. */
  lemma SettingReadsAs(known: set<string>, list: seq<Setting>, c: Cfg, m: nat)
    requires Distinct(list) && m < |list| && !list[m].Conditions?
    ensures At(RepairedAll(known, list, c).data, PathOf(list[m]))
            == if Valid(known, list[m], c.data) then At(c.data, PathOf(list[m])) else Some(DefaultOf(list[m]))
  {
    var s := list[m];
    if Valid(known, s, c.data) {
      ValidIsKept(known, list, c, s);
    } else {
      var before := RepairedAll(known, list[..m], c);
      InvalidWaits(known, list[..m], c, s);
      InThree(known, list, c, m);
      GetAfterSet(before.data, PathOf(s), DefaultOf(s));
      RepairMakesValid(known, s, before);
      ValidIsKept(known, list[m + 1..], Repaired(known, s, before), s);
    }
  }

  /** Where condition j of theme i stands among the settings. */
  lemma PickIsListed(themes: seq<Theme>, i: nat, j: nat) returns (m: nat)
    requires i < |themes| && j < |themes[i].conditions| && !themes[i].conditions[j].1.Malformed?
    ensures m < |Settings(themes)|
    ensures Settings(themes)[m] == Pick(themes[i].native, themes[i].conditions[j].0, themes[i].conditions[j].1)
  {
    UptoStep(themes, i, j);
    UptoIsPrefix(themes, i, j + 1);
    m := |Upto(themes, i, j)|;
    assert Upto(themes, i, j + 1)[m] == Settings(themes)[m];
  }

  /**
    What the handler leaves of the active theme: the name of a theme that exists, or "default". A
    value that is neither null nor a string stops the handler, and nothing at all is changed.
   */
  lemma ActiveReadsAs(known: set<string>, themes: seq<Theme>, c: Cfg)
    requires WellFormed(themes)
    ensures var was := At(c.data, ["themes", "activeTheme"]);
            var r := Settled(known, Settings(themes), c);
            if was.None? || was.value.Null? || was.value.Str? then
              At(r.data, ["themes", "activeTheme"])
              == if was.Some? && was.value.Str? && (was.value.s == "default" || was.value.s in known) then was
                 else Some(Str("default"))
            else r == c
  {
    if !Throws(c.data) {
      SettingsDistinct(themes);
      assert Settings(themes)[0] == Active;
      SettingReadsAs(known, Settings(themes), c, 0);
    }
  }

  /** What the handler leaves of a slider: any string that was there, else its stated default, its minimum, or "0". */
  lemma SliderReadsAs(known: set<string>, themes: seq<Theme>, c: Cfg, i: nat, j: nat, path: Path)
    requires WellFormed(themes) && !Throws(c.data)
    requires i < |themes| && j < |themes[i].conditions| && themes[i].conditions[j].1.Slider?
    requires path == ["themes", "conditions", themes[i].native, themes[i].conditions[j].0]
    ensures var was, slider := At(c.data, path), themes[i].conditions[j].1;
            At(Settled(known, Settings(themes), c).data, path)
            == if was.Some? && was.value.Str? then was
               else match (slider.stated, slider.min)
                    case (Some(Text(text)), _) => Some(Str(text))
                    case (Some(Number(n)), _) => Some(Str(Decimal(n)))
                    case (None, Some(n)) => Some(Str(Decimal(n)))
                    case (None, None) => Some(Str("0"))
  {
    SettingsDistinct(themes);
    var m := PickIsListed(themes, i, j);
    SettingReadsAs(known, Settings(themes), c, m);
  }

  /**
    What the handler leaves of a choice: the value that was there if it is one of the choices; else
    the one the theme prefers, if it is one of them; else the first.
   */
  lemma ChoiceReadsAs(known: set<string>, themes: seq<Theme>, c: Cfg, i: nat, j: nat, path: Path)
    requires WellFormed(themes) && !Throws(c.data)
    requires i < |themes| && j < |themes[i].conditions| && themes[i].conditions[j].1.Choice?
    requires path == ["themes", "conditions", themes[i].native, themes[i].conditions[j].0]
    ensures var was, choice := At(c.data, path), themes[i].conditions[j].1;
            && choice.values != []
            && At(Settled(known, Settings(themes), c).data, path)
               == if was.Some? && was.value.Str? && was.value.s in choice.values then was
                  else if choice.preferred.Some? && choice.preferred.value in choice.values then
                    Some(Str(choice.preferred.value))
                  else Some(Str(choice.values[0]))
  {
    SettingsDistinct(themes);
    var m := PickIsListed(themes, i, j);
    SettingReadsAs(known, Settings(themes), c, m);
  }

  /** The active theme comes first and picks come last. */
  predicate Ordered(list: seq<Setting>) {
    (list != [] ==> list[0] == Active) && forall i :: 2 <= i < |list| ==> list[i].Pick?
  }

  /** What a setting is when the repairs reach it is what it was at the start. */
  lemma ReachedAsItWas(known: set<string>, list: seq<Setting>, c: Cfg, n: nat)
    requires Distinct(list) && Ordered(list) && n < |list|
    ensures Valid(known, list[n], RepairedAll(known, list[..n], c).data) == Valid(known, list[n], c.data)
  {
    var s := list[n];
    if Valid(known, s, c.data) {
      ValidIsKept(known, list[..n], c, s);
    } else if !s.Conditions? {
      InvalidWaits(known, list[..n], c, s);
    } else if n == 1 {
      var b := list[0];
      assert list[..1] == [b] && [b][..0] == [];
      if !Valid(known, b, c.data) {
        PathsApart(s, b);
        SetKeepsOthers(c.data, PathOf(b), DefaultOf(b), PathOf(s));
      }
    }
  }

  /** As many announcements as settings were invalid. */
  lemma {:induction false} CountsRepairs(known: set<string>, list: seq<Setting>, c: Cfg)
    requires Distinct(list) && Ordered(list)
    ensures var r := RepairedAll(known, list, c);
            c.notes <= r.notes && |r.notes| == |c.notes| + Invalid(known, list, c.data)
    decreases |list|
  {
    if list != [] {
      CountsRepairs(known, list[..|list| - 1], c);
      ReachedAsItWas(known, list, c, |list| - 1);
    }
  }

  predicate Announced(before: Cfg, after: Cfg, note: Note) {
    exists k :: |before.notes| <= k < |after.notes| && after.notes[k] == note
  }

  /** One of them for each such setting. */
  lemma AnnouncesRepair(known: set<string>, list: seq<Setting>, c: Cfg, m: nat)
    requires Distinct(list) && Ordered(list) && m < |list| && !Valid(known, list[m], c.data)
    ensures Announced(c, RepairedAll(known, list, c), Note(PathOf(list[m]), DefaultOf(list[m])))
  {
    var before := RepairedAll(known, list[..m], c);
    var after := Repaired(known, list[m], before);
    CountsRepairs(known, list[..m], c);
    ReachedAsItWas(known, list, c, m);
    InThree(known, list, c, m);
    NotesGrow(known, list[m + 1..], after);
    assert after.notes[|before.notes|] == Note(PathOf(list[m]), DefaultOf(list[m]));
  }

  lemma {:induction false} NotesGrow(known: set<string>, list: seq<Setting>, c: Cfg)
    ensures c.notes <= RepairedAll(known, list, c).notes
    decreases |list|
  {
    if list != [] {
      NotesGrow(known, list[..|list| - 1], c);
    }
  }

  /** Each repaired setting is announced with the value that is then read, and nothing else is. */
  lemma RepairsAreAnnounced(known: set<string>, themes: seq<Theme>, c: Cfg, m: nat)
    requires WellFormed(themes) && !Throws(c.data)
    requires m < |Settings(themes)| && !Settings(themes)[m].Conditions?
    ensures var s := Settings(themes)[m];
            var r := Settled(known, Settings(themes), c);
            && c.notes <= r.notes
            && |r.notes| == |c.notes| + Invalid(known, Settings(themes), c.data)
            && At(r.data, PathOf(s)).Some?
            && (!Valid(known, s, c.data) ==>
                  Announced(c, r, Note(PathOf(s), At(r.data, PathOf(s)).value)))
  {
    SettingsDistinct(themes);
    PicksOfThemes(themes);
    var all, picks := Settings(themes), AllPicks(themes);
    forall i | 2 <= i < |all| ensures all[i].Pick? {
      assert all[i] == picks[i - 2] && picks[i - 2] in picks;
    }
    CountsRepairs(known, all, c);
    if !Valid(known, all[m], c.data) {
      AnnouncesRepair(known, all, c, m);
    }
    SettingReadsAs(known, all, c, m);
  }

  /** A number stored as the active theme is such a tree. */
  lemma NumberThrows(n: real)
    ensures Throws(map["themes" := Obj(map["activeTheme" := Num(n)])])
  {
    var inner := Obj(map["activeTheme" := Num(n)]);
    var t: Tree := map["themes" := inner];
    LookupStep(Obj(t), PathOf(Active));
    assert PathOf(Active)[1..] == ["activeTheme"];
    LookupStep(inner, ["activeTheme"]);
  }
}
