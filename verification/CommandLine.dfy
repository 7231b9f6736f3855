/**
  Taking a command line apart and putting it together again (src/util/cmdline_parser.cc),
  with the quoting rules of Windows or of the other platforms.
 */
module CommandLine {
  import opened Wrappers

  datatype Platform = Windows | Posix

  // ---------------------------------------------------------------- parsing

  predicate IsQuote(os: Platform, c: char) {
    c == '"' || (os.Posix? && c == '\'')
  }

  /** Where `parse` stands: the open quote, the token being collected, and the tokens found. */
  datatype Scan = Scan(quote: Option<char>, token: string, found: seq<string>)

  function Flushed(s: Scan): Scan {
    if s.token == [] then s else Scan(s.quote, [], s.found + [s.token])
  }

  /** One character. */
  function Step(os: Platform, s: Scan, c: char): Scan {
    if IsQuote(os, c) && (s.quote.None? || c == s.quote.value) then
      Scan(if s.quote.None? then Some(c) else None, s.token, s.found)
    else if c == ' ' && s.quote.None? then Flushed(s)
    else Scan(s.quote, s.token + [c], s.found)
  }

  /** All characters up to the end or a NUL. */
  function ScanAll(os: Platform, s: Scan, text: string): Scan
    decreases |text|
  {
    if text == [] || text[0] == '\0' then s else ScanAll(os, Step(os, s, text[0]), text[1..])
  }

  const START := Scan(None, [], [])

  function Tokens(os: Platform, text: string): seq<string> {
    Flushed(ScanAll(os, START, text)).found
  }

  /** The first token is the executable, the others are its parameters. */
  datatype Line = Line(exec: string, params: seq<string>)

  function LineOf(tokens: seq<string>): Line {
    if tokens == [] then Line([], []) else Line(tokens[0], tokens[1..])
  }

  function Parsed(os: Platform, text: string): Line {
    LineOf(Tokens(os, text))
  }

  // ---------------------------------------------------------------- building

  /** The token has to be put in quotes. */
  predicate NeedsQuotes(os: Platform, t: string) {
    if os.Windows? then ' ' in t || '=' in t else ' ' in t || '\t' in t || '"' in t || '\'' in t
  }

  /** A backslash before every double quote and backslash. */
  function Escaped(t: string): string {
    if t == [] then []
    else Escaped(t[..|t| - 1]) + (if t[|t| - 1] == '"' || t[|t| - 1] == '\\' then ['\\'] else []) + [t[|t| - 1]]
  }

  /** `quote_token`. */
  function Quoted(os: Platform, t: string): string {
    if !NeedsQuotes(os, t) then t
    else if os.Windows? then ['"'] + t + ['"']
    else ['"'] + Escaped(t) + ['"']
  }

  /** Which tokens are put in quotes. */
  lemma QuotedIff(os: Platform, t: string)
    ensures os.Windows? ==> Quoted(os, t) == if ' ' in t || '=' in t then ['"'] + t + ['"'] else t
    ensures os.Posix? ==> (Quoted(os, t) != t <==> ' ' in t || '\t' in t || '"' in t || '\'' in t)
    ensures var q := Quoted(os, t);
            q != t ==> |q| >= 2 && q[0] == '"' && q[|q| - 1] == '"'
  {
    EscapedGrows(t);
  }

  lemma {:induction false} EscapedGrows(t: string)
    ensures |Escaped(t)| >= |t|
    decreases |t|
  {
    if t != [] {
      EscapedGrows(t[..|t| - 1]);
    }
  }

  /** Taking escapes back: a backslash stands for the character behind it. */
  function Unescaped(e: string): string
    decreases |e|
  {
    if e == [] then []
    else if e[0] == '\\' && |e| > 1 then [e[1]] + Unescaped(e[2..])
    else [e[0]] + Unescaped(e[1..])
  }

  /** Only quotes and backslashes are escaped, each by one backslash. */
  lemma {:induction false} EscapedFront(c: char, t: string)
    ensures Escaped([c] + t) == (if c == '"' || c == '\\' then ['\\', c] else [c]) + Escaped(t)
    decreases |t|
  {
    if t != [] {
      EscapedFront(c, t[..|t| - 1]);
      assert ([c] + t)[..|t|] == [c] + t[..|t| - 1];
    }
  }

  lemma {:induction false} UnescapeUndoesEscape(t: string)
    ensures Unescaped(Escaped(t)) == t
    decreases |t|
  {
    if t != [] {
      var c, rest := t[0], t[1..];
      assert t == [c] + rest;
      EscapedFront(c, rest);
      UnescapeUndoesEscape(rest);
      var e := Escaped(t);
      assert c == '"' || c == '\\' ==> e[0] == '\\' && e[1] == c && e[2..] == Escaped(rest);
      assert !(c == '"' || c == '\\') ==> e[0] == c && e[1..] == Escaped(rest);
    }
  }

  function Built(os: Platform, exec: string, params: seq<string>): string
    decreases |params|
  {
    if params == [] then Quoted(os, exec)
    else Built(os, exec, params[..|params| - 1]) + [' '] + Quoted(os, params[|params| - 1])
  }

  // ---------------------------------------------------------------- tokens that survive

  /** A token that comes back: not empty, no NUL, no double quote, and off Windows no backslash to be doubled. */
  predicate Clean(os: Platform, t: string) {
    t != [] && '\0' !in t && '"' !in t && (os.Posix? && NeedsQuotes(os, t) ==> '\\' !in t)
  }

  lemma {:induction false} ScanConcat(os: Platform, s: Scan, a: string, b: string)
    requires '\0' !in a
    ensures ScanAll(os, s, a + b) == ScanAll(os, ScanAll(os, s, a), b)
    decreases |a|
  {
    if a == [] {
      assert a + b == b;
    } else {
      assert (a + b)[1..] == a[1..] + b && (a + b)[0] == a[0];
      ScanConcat(os, Step(os, s, a[0]), a[1..], b);
    }
  }

  /** Characters that mean nothing special join the token. */
  lemma {:induction false} ScanLiteral(os: Platform, s: Scan, a: string)
    requires '\0' !in a
    requires forall c :: c in a ==>
               if s.quote.None? then !IsQuote(os, c) && c != ' ' else c != s.quote.value
    ensures ScanAll(os, s, a) == Scan(s.quote, s.token + a, s.found)
    decreases |a|
  {
    if a != [] {
      assert a[0] in a && Step(os, s, a[0]) == Scan(s.quote, s.token + [a[0]], s.found);
      assert forall c :: c in a[1..] ==> c in a;
      ScanLiteral(os, Step(os, s, a[0]), a[1..]);
      assert s.token + [a[0]] + a[1..] == s.token + a;
    } else {
      assert s.token + a == s.token;
    }
  }

  lemma {:induction false} EscapedSame(t: string)
    requires '"' !in t && '\\' !in t
    ensures Escaped(t) == t
    decreases |t|
  {
    if t != [] {
      EscapedSame(t[..|t| - 1]);
    }
  }

  lemma ScanQuotes(os: Platform, found: seq<string>, t: string)
    requires '\0' !in t && '"' !in t
    ensures ScanAll(os, Scan(None, [], found), ['"'] + t + ['"']) == Scan(None, t, found)
  {
    var open := Scan(Some('"'), [], found);
    assert (['"'] + t + ['"'])[1..] == t + ['"'];
    assert ScanAll(os, Scan(None, [], found), ['"'] + t + ['"']) == ScanAll(os, open, t + ['"']);
    ScanConcat(os, open, t, ['"']);
    ScanLiteral(os, open, t);
    assert [] + t == t;
    assert ['"'][1..] == [];
  }

  /** A clean token, quoted as needed, is read as itself. */
  lemma ScanQuoted(os: Platform, found: seq<string>, t: string)
    requires Clean(os, t)
    ensures ScanAll(os, Scan(None, [], found), Quoted(os, t)) == Scan(None, t, found)
  {
    if !NeedsQuotes(os, t) {
      ScanLiteral(os, Scan(None, [], found), t);
      assert [] + t == t;
    } else {
      if os.Posix? {
        EscapedSame(t);
      }
      ScanQuotes(os, found, t);
    }
  }

  lemma {:induction false} EscapedNulFree(t: string)
    requires '\0' !in t
    ensures '\0' !in Escaped(t)
    decreases |t|
  {
    if t != [] {
      EscapedNulFree(t[..|t| - 1]);
    }
  }

  lemma {:induction false} BuiltNulFree(os: Platform, exec: string, params: seq<string>)
    requires '\0' !in exec && forall i :: 0 <= i < |params| ==> '\0' !in params[i]
    ensures '\0' !in Built(os, exec, params)
    decreases |params|
  {
    if params == [] {
      EscapedNulFree(exec);
    } else {
      BuiltNulFree(os, exec, params[..|params| - 1]);
      EscapedNulFree(params[|params| - 1]);
    }
  }

  /** One more clean token, after a blank. */
  lemma ScanOneMore(os: Platform, mid: Scan, found: seq<string>, t: string)
    requires Clean(os, t) && mid.quote.None? && Flushed(mid) == Scan(None, [], found)
    ensures Flushed(ScanAll(os, mid, [' '] + Quoted(os, t))) == Scan(None, [], found + [t])
  {
    assert ([' '] + Quoted(os, t))[1..] == Quoted(os, t);
    assert ScanAll(os, mid, [' '] + Quoted(os, t)) == ScanAll(os, Scan(None, [], found), Quoted(os, t));
    ScanQuoted(os, found, t);
  }

  /** The text is read as just these tokens, with no quote left open. */
  predicate ReadsAs(os: Platform, text: string, tokens: seq<string>) {
    Flushed(ScanAll(os, START, text)) == Scan(None, [], tokens)
  }

  lemma ScanJoined(os: Platform, head: string, found: seq<string>, t: string)
    requires '\0' !in head && Clean(os, t) && ReadsAs(os, head, found)
    ensures ReadsAs(os, head + ([' '] + Quoted(os, t)), found + [t])
  {
    ScanConcat(os, START, head, [' '] + Quoted(os, t));
    ScanOneMore(os, ScanAll(os, START, head), found, t);
  }

  lemma BuiltStep(os: Platform, exec: string, init: seq<string>, last: string)
    ensures Built(os, exec, init + [last]) == Built(os, exec, init) + ([' '] + Quoted(os, last))
  {
    assert (init + [last])[..|init|] == init;
  }

  /** Reading back what was built from clean tokens. */
  lemma {:induction false} ScanBuilt(os: Platform, exec: string, params: seq<string>)
    requires Clean(os, exec) && forall i :: 0 <= i < |params| ==> Clean(os, params[i])
    ensures ReadsAs(os, Built(os, exec, params), [exec] + params)
    decreases |params|
  {
    if params == [] {
      ScanQuoted(os, [], exec);
      assert [exec] + params == [exec];
    } else {
      var init, last := params[..|params| - 1], params[|params| - 1];
      ScanBuilt(os, exec, init);
      BuiltNulFree(os, exec, init);
      BuiltStep(os, exec, init, last);
      ScanJoined(os, Built(os, exec, init), [exec] + init, last);
      assert init + [last] == params;
      assert [exec] + init + [last] == [exec] + params;
    }
  }

  // ---------------------------------------------------------------- what a parse can give

  /** What every token read so far is like. */
  predicate Readable(os: Platform, t: string) {
    '\0' !in t && (os.Windows? ==> '"' !in t)
  }

  predicate AllReadable(os: Platform, s: Scan) {
    && Readable(os, s.token) && (os.Windows? && s.quote.Some? ==> s.quote.value == '"')
    && forall i :: 0 <= i < |s.found| ==> s.found[i] != [] && Readable(os, s.found[i])
  }

  lemma {:induction false} ScanReadable(os: Platform, s: Scan, text: string)
    requires AllReadable(os, s)
    ensures AllReadable(os, ScanAll(os, s, text))
    decreases |text|
  {
    if text != [] && text[0] != '\0' {
      ScanReadable(os, Step(os, s, text[0]), text[1..]);
    }
  }

  lemma TokensReadable(os: Platform, text: string)
    ensures forall i :: 0 <= i < |Tokens(os, text)| ==> Tokens(os, text)[i] != [] && Readable(os, Tokens(os, text)[i])
  {
    ScanReadable(os, START, text);
  }

  // ---------------------------------------------------------------- counting backslashes

  function Backslashes(t: string): nat {
    if t == [] then 0 else Backslashes(t[..|t| - 1]) + if t[|t| - 1] == '\\' then 1 else 0
  }

  function DoubleQuotes(t: string): nat {
    if t == [] then 0 else DoubleQuotes(t[..|t| - 1]) + if t[|t| - 1] == '"' then 1 else 0
  }

  function AllBackslashes(ts: seq<string>): nat {
    if ts == [] then 0 else AllBackslashes(ts[..|ts| - 1]) + Backslashes(ts[|ts| - 1])
  }

  lemma {:induction false} BackslashesConcat(a: string, b: string)
    ensures Backslashes(a + b) == Backslashes(a) + Backslashes(b)
    decreases |b|
  {
    if b == [] {
      assert a + b == a;
    } else {
      assert (a + b)[..|a + b| - 1] == a + b[..|b| - 1];
      BackslashesConcat(a, b[..|b| - 1]);
    }
  }

  lemma {:induction false} NoneCounted(t: string)
    ensures Backslashes(t) == 0 <==> '\\' !in t
    ensures DoubleQuotes(t) == 0 <==> '"' !in t
    decreases |t|
  {
    if t != [] {
      NoneCounted(t[..|t| - 1]);
      assert t == t[..|t| - 1] + [t[|t| - 1]];
    }
  }

  lemma {:induction false} EscapedCount(t: string)
    ensures Backslashes(Escaped(t)) == 2 * Backslashes(t) + DoubleQuotes(t)
    decreases |t|
  {
    if t != [] {
      var n := |t| - 1;
      EscapedCount(t[..n]);
      var c := t[n];
      var pre: string := if c == '"' || c == '\\' then ['\\'] else [];
      BackslashesConcat(Escaped(t[..n]) + pre, [c]);
      BackslashesConcat(Escaped(t[..n]), pre);
      assert [c][..0] == [] && (pre != [] ==> pre[..0] == []);
    }
  }

  /** Quoting off Windows adds a backslash for every one and for every double quote of a quoted token. */
  lemma QuotedCount(t: string)
    ensures Backslashes(Quoted(Posix, t))
            == Backslashes(t) + if NeedsQuotes(Posix, t) then Backslashes(t) + DoubleQuotes(t) else 0
  {
    if NeedsQuotes(Posix, t) {
      EscapedCount(t);
      BackslashesConcat(['"'] + Escaped(t), ['"']);
      BackslashesConcat(['"'], Escaped(t));
      assert ['"'][..0] == [];
    }
  }

  function Held(s: Scan): nat {
    AllBackslashes(s.found) + Backslashes(s.token)
  }

  lemma StepCount(s: Scan, c: char)
    ensures Held(Step(Posix, s, c)) == Held(s) + if c == '\\' then 1 else 0
  {
    assert (s.token + [c])[..|s.token|] == s.token;
    assert (s.found + [s.token])[..|s.found|] == s.found;
  }

  /** Parsing neither loses nor makes a backslash. */
  lemma {:induction false} ScanCount(s: Scan, text: string)
    requires '\0' !in text
    ensures Held(ScanAll(Posix, s, text)) == Held(s) + Backslashes(text)
    decreases |text|
  {
    if text != [] {
      StepCount(s, text[0]);
      ScanCount(Step(Posix, s, text[0]), text[1..]);
      assert text == [text[0]] + text[1..];
      BackslashesConcat([text[0]], text[1..]);
      assert [text[0]][..0] == [];
    }
  }

  lemma TokensCount(text: string)
    requires '\0' !in text
    ensures AllBackslashes(Tokens(Posix, text)) == Backslashes(text)
  {
    ScanCount(START, text);
    var s := ScanAll(Posix, START, text);
    assert (s.found + [s.token])[..|s.found|] == s.found;
  }

  /** How many backslashes building adds to a token. */
  function Extra(t: string): nat {
    if NeedsQuotes(Posix, t) then Backslashes(t) + DoubleQuotes(t) else 0
  }

  lemma {:induction false} BuiltCount(exec: string, params: seq<string>)
    ensures Backslashes(Built(Posix, exec, params)) >= Backslashes(exec) + AllBackslashes(params) + Extra(exec)
    ensures forall i :: 0 <= i < |params| ==>
              Backslashes(Built(Posix, exec, params)) >= Backslashes(exec) + AllBackslashes(params) + Extra(params[i])
    decreases |params|
  {
    if params == [] {
      QuotedCount(exec);
    } else {
      var n := |params| - 1;
      BuiltCount(exec, params[..n]);
      QuotedCount(params[n]);
      BackslashesConcat(Built(Posix, exec, params[..n]) + [' '], Quoted(Posix, params[n]));
      BackslashesConcat(Built(Posix, exec, params[..n]), [' ']);
      assert [' '][..0] == [];
    }
  }

  lemma {:induction false} CountFront(exec: string, params: seq<string>)
    ensures AllBackslashes([exec] + params) == Backslashes(exec) + AllBackslashes(params)
    decreases |params|
  {
    if params == [] {
      assert [exec] + params == [exec] && [exec][..0] == [];
    } else {
      assert ([exec] + params)[..|params|] == [exec] + params[..|params| - 1];
      CountFront(exec, params[..|params| - 1]);
    }
  }

  // ---------------------------------------------------------------- the round trip

  /** All tokens of a line are clean. */
  predicate CleanLine(os: Platform, l: Line) {
    Clean(os, l.exec) && forall i :: 0 <= i < |l.params| ==> Clean(os, l.params[i])
  }

  /** Off Windows, a token to be quoted that contains a double quote or backslash is not read back. */
  lemma PosixCleanNeeded(exec: string, params: seq<string>)
    requires '\0' !in exec && forall i :: 0 <= i < |params| ==> '\0' !in params[i]
    requires Tokens(Posix, Built(Posix, exec, params)) == [exec] + params
    ensures Extra(exec) == 0 && forall i :: 0 <= i < |params| ==> Extra(params[i]) == 0
  {
    BuiltNulFree(Posix, exec, params);
    TokensCount(Built(Posix, exec, params));
    CountFront(exec, params);
    BuiltCount(exec, params);
  }

  lemma PosixTokenClean(t: string)
    requires t != [] && '\0' !in t && Extra(t) == 0
    ensures Clean(Posix, t)
  {
    NoneCounted(t);
  }

  /** Building a line and parsing it gives it back exactly when it is empty or all its tokens are clean. */
  lemma RoundTripIff(os: Platform, l: Line)
    ensures Parsed(os, Built(os, l.exec, l.params)) == l <==> l == Line([], []) || CleanLine(os, l)
  {
    var text := Built(os, l.exec, l.params);
    var tokens := Tokens(os, text);
    if l == Line([], []) {
      assert text == [];
    } else if CleanLine(os, l) {
      ScanBuilt(os, l.exec, l.params);
    } else if Parsed(os, text) == l {
      TokensReadable(os, text);
      assert tokens == [l.exec] + l.params;
      forall i | 0 <= i < |l.params| ensures l.params[i] != [] && Readable(os, l.params[i]) {
        assert tokens[i + 1] == l.params[i];
      }
      if os.Posix? {
        PosixCleanNeeded(l.exec, l.params);
        PosixTokenClean(l.exec);
        forall i | 0 <= i < |l.params| ensures Clean(os, l.params[i]) {
          PosixTokenClean(l.params[i]);
        }
      }
      assert false;
    }
  }

  /** With Windows quoting, whatever was parsed survives building and parsing. */
  lemma WindowsParseIsStable(text: string)
    ensures var l := Parsed(Windows, text);
            Parsed(Windows, Built(Windows, l.exec, l.params)) == l
  {
    var l := Parsed(Windows, text);
    TokensReadable(Windows, text);
    RoundTripIff(Windows, l);
  }

  /** Elsewhere not: a double quote read inside single quotes does not come back. */
  lemma PosixParseIsNotStable()
    ensures var l := Parsed(Posix, "'\"'");
            Parsed(Posix, Built(Posix, l.exec, l.params)) != l
  {
    var text := "'\"'";
    assert text[1..] == "\"'" && text[2..] == "'";
    assert ScanAll(Posix, START, text) == Scan(None, "\"", []) by {
      assert Step(Posix, START, '\'') == Scan(Some('\''), "", []);
      assert Step(Posix, Scan(Some('\''), "", []), '"') == Scan(Some('\''), "\"", []);
      assert text[1..][1..] == text[2..] && text[2..][1..] == [];
    }
    RoundTripIff(Posix, Line("\"", []));
  }

  // ---------------------------------------------------------------- parameters

  /** The parameter is the key itself, or the key with a value. */
  predicate Matches(p: string, key: string) {
    p == key || (|p| > |key| && p[..|key|] == key && p[|key|] == '=')
  }

  function Entry(key: string, value: Option<string>): (e: string)
    ensures Matches(e, key)
  {
    if value.Some? then key + "=" + value.value else key
  }

  /** The first match replaced, if there is one. */
  function Replaced(params: seq<string>, key: string, entry: string): seq<string> {
    if params == [] then []
    else if Matches(params[0], key) then [entry] + params[1..]
    else [params[0]] + Replaced(params[1..], key, entry)
  }

  lemma {:induction false} ReplacedAt(params: seq<string>, key: string, entry: string, i: nat)
    requires i < |params| && Matches(params[i], key) && forall k :: 0 <= k < i ==> !Matches(params[k], key)
    ensures Replaced(params, key, entry) == params[i := entry]
    decreases |params|
  {
    if i > 0 {
      ReplacedAt(params[1..], key, entry, i - 1);
      assert params[i := entry] == [params[0]] + params[1..][i - 1 := entry];
    }
  }

  predicate HasMatch(params: seq<string>, key: string) {
    exists i :: 0 <= i < |params| && Matches(params[i], key)
  }

  function Ensured(params: seq<string>, key: string, value: Option<string>): seq<string> {
    if HasMatch(params, key) then Replaced(params, key, Entry(key, value)) else [Entry(key, value)] + params
  }

  /** The parameter as text: the key, and "=" with the value if there is one. */
  predicate Spells(entry: string, key: string, value: Option<string>) {
    match value
    case None => entry == key
    case Some(v) => |entry| == |key| + 1 + |v| && entry[..|key|] == key && entry[|key|] == '=' && entry[|key| + 1..] == v
  }

  /** Not the key, and not the key with a value. */
  predicate Unrelated(p: string, key: string) {
    p != key && !(key + "=" <= p)
  }

  lemma UnrelatedIff(p: string, key: string)
    ensures Unrelated(p, key) <==> !Matches(p, key)
  {
    var k := key + "=";
    if |p| > |key| && p[..|key|] == key && p[|key|] == '=' {
      assert k <= p;
    }
    if k <= p {
      assert p[|key|] == k[|key|] && forall i :: 0 <= i < |key| ==> p[i] == k[i];
    }
  }

  lemma EntrySpells(key: string, value: Option<string>)
    ensures Spells(Entry(key, value), key, value)
  {
    if value.Some? {
      assert Entry(key, value)[|key| + 1..] == value.value;
    }
  }

  /** A key that is there is given its value where it stands first; all else stays. */
  lemma EnsuredInPlace(params: seq<string>, key: string, value: Option<string>, i: nat)
    requires i < |params| && !Unrelated(params[i], key) && forall k :: 0 <= k < i ==> Unrelated(params[k], key)
    ensures var r := Ensured(params, key, value);
            |r| == |params| && Spells(r[i], key, value) && forall k :: 0 <= k < |r| && k != i ==> r[k] == params[k]
  {
    UnrelatedIff(params[i], key);
    forall k | 0 <= k < i ensures !Matches(params[k], key) {
      UnrelatedIff(params[k], key);
    }
    ReplacedAt(params, key, Entry(key, value), i);
    EntrySpells(key, value);
  }

  /** A key that is not there is put in front. */
  lemma EnsuredInFront(params: seq<string>, key: string, value: Option<string>)
    requires forall k :: 0 <= k < |params| ==> Unrelated(params[k], key)
    ensures var r := Ensured(params, key, value);
            |r| == |params| + 1 && Spells(r[0], key, value) && r[1..] == params
  {
    forall k | 0 <= k < |params| ensures !Matches(params[k], key) {
      UnrelatedIff(params[k], key);
    }
    EntrySpells(key, value);
  }

  function Removed(params: seq<string>, key: string): seq<string> {
    if params == [] then []
    else (if Matches(params[0], key) then [] else [params[0]]) + Removed(params[1..], key)
  }

  lemma {:induction false} RemovedAfterReplaced(params: seq<string>, key: string, entry: string)
    requires Matches(entry, key)
    ensures Removed(Replaced(params, key, entry), key) == Removed(params, key)
    decreases |params|
  {
    if params != [] {
      var rest := params[1..];
      if Matches(params[0], key) {
        assert ([entry] + rest)[1..] == rest;
      } else {
        RemovedAfterReplaced(rest, key, entry);
        assert ([params[0]] + Replaced(rest, key, entry))[1..] == Replaced(rest, key, entry);
      }
    }
  }

  /** Removing a parameter just ensured is removing it alone. */
  lemma RemoveAfterEnsure(params: seq<string>, key: string, value: Option<string>)
    ensures Removed(Ensured(params, key, value), key) == Removed(params, key)
  {
    var entry := Entry(key, value);
    RemovedAfterReplaced(params, key, entry);
    assert ([entry] + params)[1..] == params;
  }

  lemma {:induction false} ReplacedTwice(params: seq<string>, key: string, a: string, b: string)
    requires Matches(a, key) && Matches(b, key) && HasMatch(params, key)
    ensures HasMatch(Replaced(params, key, a), key)
    ensures Replaced(Replaced(params, key, a), key, b) == Replaced(params, key, b)
    decreases |params|
  {
    var rest := params[1..];
    if Matches(params[0], key) {
      assert ([a] + rest)[0] == a && ([a] + rest)[1..] == rest;
    } else {
      var i :| 0 <= i < |params| && Matches(params[i], key);
      assert rest[i - 1] == params[i];
      ReplacedTwice(rest, key, a, b);
      var r := [params[0]] + Replaced(rest, key, a);
      assert r[1..] == Replaced(rest, key, a);
      var j :| 0 <= j < |r[1..]| && Matches(r[1..][j], key);
      assert r[j + 1] == r[1..][j];
    }
  }

  /** Of two values ensured for one key the later one counts, and nothing else changes. */
  lemma LastEnsureWins(params: seq<string>, key: string, a: Option<string>, b: Option<string>)
    ensures Ensured(Ensured(params, key, a), key, b) == Ensured(params, key, b)
  {
    var x, y := Entry(key, a), Entry(key, b);
    if HasMatch(params, key) {
      ReplacedTwice(params, key, x, y);
    } else {
      var r := [x] + params;
      assert Matches(r[0], key) && r[1..] == params;
    }
  }

  /** Removing takes out the key in all its forms, wherever it stands, and keeps the rest in order. */
  lemma {:induction false} RemovedInTwo(a: seq<string>, p: string, b: seq<string>, key: string)
    ensures Removed(a + [p] + b, key)
            == Removed(a, key) + (if Unrelated(p, key) then [p] else []) + Removed(b, key)
    decreases |a|
  {
    if a == [] {
      UnrelatedIff(p, key);
      assert ([] + [p] + b)[1..] == b;
    } else {
      RemovedInTwo(a[1..], p, b, key);
      assert (a + [p] + b)[1..] == a[1..] + [p] + b;
    }
  }

  lemma {:induction false} RemovedHasNone(params: seq<string>, key: string)
    ensures !HasMatch(Removed(params, key), key)
    decreases |params|
  {
    if params != [] {
      RemovedHasNone(params[1..], key);
    }
  }

  // ---------------------------------------------------------------- the command

  /** `command`. */
  class Command {
    const os: Platform
    var exec: string
    var params: seq<string>

    /** No text at all, a null pointer, leaves the command empty. */
    constructor (os: Platform, text: Option<string>)
      ensures this.os == os
      ensures Line(exec, params) == if text.Some? then Parsed(os, text.value) else Line([], [])
    {
      this.os, exec, params := os, [], [];
      new;
      if text.Some? {
        Parse(text.value);
      }
    }

    /**
      `flush`: the first token becomes the executable, a later one a parameter; the caller's token
      is cleared and it is no longer at the first.
     */
    method Flush(token: string, first: bool) returns (cleared: string, stillFirst: bool)
      modifies this`exec, this`params
      ensures cleared == "" && !stillFirst
      ensures if first then exec == token && params == old(params)
              else exec == old(exec) && params == old(params) + [token]
    {
      if first {
        exec, stillFirst := token, false;
      } else {
        params, stillFirst := params + [token], first;
      }
      cleared := "";
    }

    /** `parse`, on a fresh command. */
    method Parse(text: string)
      requires exec == [] && params == []
      modifies this
      ensures Line(exec, params) == Parsed(os, text)
    {
      var token, quote: Option<char>, first, i := "", None, true, 0;
      ghost var found: seq<string> := [];
      while i < |text| && text[i] != '\0'
        invariant i <= |text|
        invariant ScanAll(os, Scan(quote, token, found), text[i..]) == ScanAll(os, START, text)
        invariant first <==> found == []
        invariant Line(exec, params) == LineOf(found)
        decreases |text| - i
      {
        var c := text[i];
        assert text[i..][0] == c && text[i..][1..] == text[i + 1..];
        i := i + 1;
        if IsQuote(os, c) && (quote.None? || c == quote.value) {
          quote := if quote.None? then Some(c) else None;
          continue;
        }
        if c == ' ' && quote.None? {
          if token != [] {
            found := found + [token];
            token, first := Flush(token, first);
          }
          continue;
        }
        token := token + [c];
      }
      assert ScanAll(os, Scan(quote, token, found), text[i..]) == Scan(quote, token, found);
      if token != [] {
        token, first := Flush(token, first);
      }
    }

    /** `quote_token`. */
    method QuoteToken(t: string) returns (q: string)
      ensures q == Quoted(os, t)
    {
      if !NeedsQuotes(os, t) {
        return t;
      }
      if os.Windows? {
        return ['"'] + t + ['"'];
      }
      var out, i := ['"'], 0;
      while i < |t|
        invariant i <= |t| && out == ['"'] + Escaped(t[..i])
      {
        assert t[..i + 1][..i] == t[..i];
        if t[i] == '"' || t[i] == '\\' {
          out := out + ['\\'];
        }
        out := out + [t[i]];
        i := i + 1;
      }
      assert t[..i] == t;
      q := out + ['"'];
    }

    method Build() returns (text: string)
      ensures text == Built(os, exec, params)
    {
      text := QuoteToken(exec);
      var i := 0;
      while i < |params|
        invariant i <= |params| && text == Built(os, exec, params[..i])
      {
        assert params[..i + 1][..i] == params[..i];
        var q := QuoteToken(params[i]);
        text := text + [' '] + q;
        i := i + 1;
      }
      assert params[..i] == params;
    }

    method EnsureParam(key: string, value: Option<string>)
      modifies this`params
      ensures params == Ensured(old(params), key, value)
    {
      var entry, i := Entry(key, value), 0;
      while i < |params|
        invariant i <= |params| && params == old(params)
        invariant forall k :: 0 <= k < i ==> !Matches(params[k], key)
      {
        if Matches(params[i], key) {
          ReplacedAt(params, key, entry, i);
          params := params[i := entry];
          return;
        }
        i := i + 1;
      }
      params := [entry] + params;
    }

    method RemoveParam(key: string)
      modifies this`params
      ensures params == Removed(old(params), key)
    {
      var kept, i := [], 0;
      while i < |params|
        invariant i <= |params| && params == old(params)
        invariant kept + Removed(params[i..], key) == Removed(params, key)
      {
        assert params[i..][0] == params[i] && params[i..][1..] == params[i + 1..];
        if !Matches(params[i], key) {
          kept := kept + [params[i]];
        }
        i := i + 1;
      }
      params := kept;
    }
  }
}
