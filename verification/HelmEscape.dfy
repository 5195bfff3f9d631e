/** The escaping of `--set-string` keys and values, and the reader it has to survive. */
module HelmEscape {
  import opened Text

  predicate IsMeta(c: char) {
    c == '\\' || c == ',' || c == '.' || c == '='
  }

  /** The chain of replaces, backslash first. */
  function Escape(value: string): string {
    var value := Replace(value, '\\', "\\\\");
    var value := Replace(value, ',', "\\,");
    var value := Replace(value, '.', "\\.");
    Replace(value, '=', "\\=")
  }

  /** The intended per-character escape: a backslash before each metacharacter. */
  function EscapeOnePass(s: string): string {
    if s == "" then "" else (if IsMeta(s[0]) then ['\\', s[0]] else [s[0]]) + EscapeOnePass(s[1..])
  }

  lemma EscapeOne(x: char)
    ensures Escape([x]) == if IsMeta(x) then ['\\', x] else [x]
  {
    var s1 := Replace([x], '\\', "\\\\");
    if x == '\\' {
      assert s1 == ['\\', x];
      ReplaceTwo('\\', x, ',', "\\,");
      ReplaceTwo('\\', x, '.', "\\.");
      ReplaceTwo('\\', x, '=', "\\=");
    } else if x == ',' {
      ReplaceTwo('\\', x, '.', "\\.");
      ReplaceTwo('\\', x, '=', "\\=");
    } else if x == '.' {
      ReplaceTwo('\\', x, '=', "\\=");
    }
  }

  lemma EscapeAppends(a: string, b: string)
    ensures Escape(a + b) == Escape(a) + Escape(b)
  {
    var a1, b1 := Replace(a, '\\', "\\\\"), Replace(b, '\\', "\\\\");
    var a2, b2 := Replace(a1, ',', "\\,"), Replace(b1, ',', "\\,");
    var a3, b3 := Replace(a2, '.', "\\."), Replace(b2, '.', "\\.");
    ReplaceAppends(a, b, '\\', "\\\\");
    ReplaceAppends(a1, b1, ',', "\\,");
    ReplaceAppends(a2, b2, '.', "\\.");
    ReplaceAppends(a3, b3, '=', "\\=");
  }

  /** The four ordered replaces are the one-pass escape, on every string. */
  lemma {:induction false} FourReplacesAreOnePass(s: string)
    ensures Escape(s) == EscapeOnePass(s)
  {
    if s != "" {
      assert s == [s[0]] + s[1..];
      EscapeAppends([s[0]], s[1..]);
      EscapeOne(s[0]);
      FourReplacesAreOnePass(s[1..]);
    }
  }

  // The reader named by the docstring: a backslash makes the next character literal; a bare
  // comma, dot or equals sign is structure.

  datatype Token = Literal(c: char) | Structure(c: char)

  function Scan(s: string): Option<seq<Token>> {
    if s == "" then Some([])
    else if s[0] == '\\' then
      if |s| == 1 then None
      else match Scan(s[2..])
        case None => None
        case Some(rest) => Some([Literal(s[1])] + rest)
    else
      match Scan(s[1..])
      case None => None
      case Some(rest) => Some([if IsMeta(s[0]) then Structure(s[0]) else Literal(s[0])] + rest)
  }

  /** The reader takes exactly these three for structure when they stand bare, and none of them, nor a
      backslash, after a backslash. */
  lemma StructureIff(c: char)
    ensures c == ',' || c == '.' || c == '=' ==> Scan([c]) == Some([Structure(c)])
    ensures c != ',' && c != '.' && c != '=' && c != '\\' ==> Scan([c]) == Some([Literal(c)])
    ensures Scan(['\\', c]) == Some([Literal(c)])
  {
    var bare, escaped := [c], ['\\', c];
    assert bare[1..] == "" && escaped[2..] == "" && Scan("") == Some([]);
    assert [Literal(c)] + [] == [Literal(c)] && [Structure(c)] + [] == [Structure(c)];
  }

  /** The tokens before the first bare `c`, and those after it when there is one. */
  function Cut(ts: seq<Token>, c: char): (r: (seq<Token>, Option<seq<Token>>))
    ensures r.1.Some? ==> |r.1.value| < |ts|
  {
    if ts == [] then ([], None)
    else if ts[0] == Structure(c) then ([], Some(ts[1..]))
    else var (head, tail) := Cut(ts[1..], c); ([ts[0]] + head, tail)
  }

  function Chars(ts: seq<Token>): string {
    seq(|ts|, i requires 0 <= i < |ts| => ts[i].c)
  }

  /** A key path: the segments between bare dots. */
  function Path(ts: seq<Token>): seq<string>
    decreases |ts|
  {
    var (head, tail) := Cut(ts, '.');
    [Chars(head)] + (if tail.Some? then Path(tail.value) else [])
  }

  datatype Setting = Setting(path: seq<string>, value: string)

  function ReadSettings(ts: seq<Token>): Option<seq<Setting>>
    decreases |ts|
  {
    var (first, others) := Cut(ts, ',');
    var (key, value) := Cut(first, '=');
    if value.None? then None
    else
      var setting := Setting(Path(key), Chars(value.value));
      if others.None? then Some([setting])
      else match ReadSettings(others.value)
        case None => None
        case Some(rest) => Some([setting] + rest)
  }

  function Read(s: string): Option<seq<Setting>> {
    match Scan(s)
    case None => None
    case Some(ts) => ReadSettings(ts)
  }

  /** The `key=value` argument handed to helm. */
  function SetArgument(k: string, v: string): string {
    Escape(k) + "=" + Escape(v)
  }

  function Literals(s: string): seq<Token> {
    seq(|s|, i requires 0 <= i < |s| => Literal(s[i]))
  }

  lemma ScanPiece(x: char, rest: string)
    requires Scan(rest).Some?
    ensures Scan((if IsMeta(x) then ['\\', x] else [x]) + rest) == Some([Literal(x)] + Scan(rest).value)
  {
    var e := (if IsMeta(x) then ['\\', x] else [x]) + rest;
    assert if IsMeta(x) then e[2..] == rest else e[1..] == rest;
  }

  lemma LiteralsStep(s: string, ts: seq<Token>)
    requires s != ""
    ensures Literals(s) + ts == [Literal(s[0])] + (Literals(s[1..]) + ts)
  {
  }

  lemma {:induction false} ScanEscaped(s: string, rest: string)
    requires Scan(rest).Some?
    ensures Scan(EscapeOnePass(s) + rest) == Some(Literals(s) + Scan(rest).value)
  {
    if s == "" {
      assert EscapeOnePass(s) + rest == rest;
      assert Literals(s) + Scan(rest).value == Scan(rest).value;
    } else {
      ScanEscaped(s[1..], rest);
      var e1 := EscapeOnePass(s[1..]) + rest;
      assert EscapeOnePass(s) + rest == (if IsMeta(s[0]) then ['\\', s[0]] else [s[0]]) + e1;
      ScanPiece(s[0], e1);
      LiteralsStep(s, Scan(rest).value);
    }
  }

  lemma {:induction false} CutAfterLiterals(s: string, rest: seq<Token>, c: char)
    ensures Cut(Literals(s) + rest, c) == (Literals(s) + Cut(rest, c).0, Cut(rest, c).1)
  {
    var ts := Literals(s) + rest;
    if s == "" {
      assert ts == rest;
      assert Literals(s) + Cut(rest, c).0 == Cut(rest, c).0;
    } else {
      assert ts[1..] == Literals(s[1..]) + rest;
      CutAfterLiterals(s[1..], rest, c);
      assert [Literal(s[0])] + (Literals(s[1..]) + Cut(rest, c).0) == Literals(s) + Cut(rest, c).0;
    }
  }

  lemma CutLiterals(s: string, c: char)
    ensures Cut(Literals(s), c) == (Literals(s), None)
  {
    assert Literals(s) + [] == Literals(s);
    CutAfterLiterals(s, [], c);
  }

  /** The tokens of an argument: the key's characters, a bare equals sign, the value's. */
  lemma ScanArgument(k: string, v: string)
    ensures Scan(SetArgument(k, v)) == Some(Literals(k) + ([Structure('=')] + Literals(v)))
  {
    FourReplacesAreOnePass(k);
    FourReplacesAreOnePass(v);
    var tail := "=" + EscapeOnePass(v);
    Associates(EscapeOnePass(k), "=", EscapeOnePass(v));
    ScanEscaped(v, "");
    assert EscapeOnePass(v) + "" == EscapeOnePass(v) && Literals(v) + [] == Literals(v);
    ScanBare(tail, EscapeOnePass(v), '=');
    ScanEscaped(k, tail);
  }

  /** There is one setting in them, cut at the bare equals sign. */
  lemma CutArgument(k: string, v: string)
    ensures var ts := Literals(k) + ([Structure('=')] + Literals(v));
      Cut(ts, ',') == (ts, None) && Cut(ts, '=') == (Literals(k), Some(Literals(v)))
  {
    var tts := [Structure('=')] + Literals(v);
    assert tts[0] == Structure('=') && tts[1..] == Literals(v);
    CutLiterals(v, ',');
    assert Cut(tts, ',') == (tts, None);
    CutAfterLiterals(k, tts, ',');
    CutAfterLiterals(k, tts, '=');
    assert Literals(k) + [] == Literals(k);
  }

  /** Reading back an escaped argument gives exactly the one pair, with no nesting, for every key and
      value (empty ones and ones full of metacharacters included). */
  lemma ReadsBackExactlyOnePair(k: string, v: string)
    ensures Read(SetArgument(k, v)) == Some([Setting([k], v)])
  {
    ScanArgument(k, v);
    CutArgument(k, v);
    CutLiterals(k, '.');
    assert Chars(Literals(k)) == k && Chars(Literals(v)) == v;
    assert Path(Literals(k)) == [k];
  }

  // ---- The order of the replaces ----

  /** The same replaces with the backslash last. */
  function EscapeLate(value: string): string {
    Replace(Replace(Replace(Replace(value, ',', "\\,"), '.', "\\."), '=', "\\="), '\\', "\\\\")
  }

  predicate Bare(c: char) {
    c == ',' || c == '.' || c == '='
  }

  function LatePiece(c: char): string {
    if Bare(c) then ['\\', '\\', c] else if c == '\\' then ['\\', '\\'] else [c]
  }

  function LateOnePass(s: string): string {
    if s == "" then "" else LatePiece(s[0]) + LateOnePass(s[1..])
  }

  lemma LateThree(x: char)
    ensures Replace(Replace(Replace([x], ',', "\\,"), '.', "\\."), '=', "\\=") == if Bare(x) then ['\\', x] else [x]
  {
    ReplaceOne(x, ',', "\\,");
    ReplaceOne(x, '.', "\\.");
    ReplaceOne(x, '=', "\\=");
    if x == ',' {
      ReplaceTwo('\\', x, '.', "\\.");
      ReplaceTwo('\\', x, '=', "\\=");
    } else if x == '.' {
      ReplaceTwo('\\', x, '=', "\\=");
    }
  }

  lemma LateOne(x: char)
    ensures EscapeLate([x]) == LatePiece(x)
  {
    LateThree(x);
    ReplaceOne(x, '\\', "\\\\");
    if Bare(x) {
      ReplaceOne('\\', '\\', "\\\\");
      assert ['\\', x] == ['\\'] + [x];
      ReplaceAppends(['\\'], [x], '\\', "\\\\");
    }
  }

  lemma {:induction false} LateReplacesAreOnePass(s: string)
    ensures EscapeLate(s) == LateOnePass(s)
  {
    if s != "" {
      var a, b := [s[0]], s[1..];
      assert s == a + b;
      var a1, b1 := Replace(a, ',', "\\,"), Replace(b, ',', "\\,");
      var a2, b2 := Replace(a1, '.', "\\."), Replace(b1, '.', "\\.");
      var a3, b3 := Replace(a2, '=', "\\="), Replace(b2, '=', "\\=");
      ReplaceAppends(a, b, ',', "\\,");
      ReplaceAppends(a1, b1, '.', "\\.");
      ReplaceAppends(a2, b2, '=', "\\=");
      ReplaceAppends(a3, b3, '\\', "\\\\");
      LateOne(s[0]);
      LateReplacesAreOnePass(b);
    }
  }

  /** What the reader makes of it: each comma, dot or equals sign stays structure, behind a literal
      backslash. */
  function LateTokens(s: string): seq<Token> {
    if s == "" then []
    else (if Bare(s[0]) then [Literal('\\'), Structure(s[0])] else [Literal(s[0])]) + LateTokens(s[1..])
  }

  lemma {:induction false} ScanLate(s: string)
    ensures Scan(LateOnePass(s)) == Some(LateTokens(s))
  {
    if s != "" {
      var rest := LateOnePass(s[1..]);
      ScanLate(s[1..]);
      if Bare(s[0]) {
        ScanBare([s[0]] + rest, rest, s[0]);
        ScanPiece('\\', [s[0]] + rest);
        assert LatePiece(s[0]) + rest == ['\\', '\\'] + ([s[0]] + rest);
        Associates([Literal('\\')], [Structure(s[0])], LateTokens(s[1..]));
        assert [Literal('\\'), Structure(s[0])] == [Literal('\\')] + [Structure(s[0])];
      } else {
        ScanPiece(s[0], rest);
      }
    }
  }

  lemma {:induction false} LateTokensAreMore(s: string)
    ensures |LateTokens(s)| >= |s|
    ensures (exists i :: 0 <= i < |s| && Bare(s[i])) <==> |LateTokens(s)| > |s|
    ensures !(exists i :: 0 <= i < |s| && Bare(s[i])) ==> LateTokens(s) == Literals(s)
  {
    if s != "" {
      LateTokensAreMore(s[1..]);
      assert forall i :: 0 < i < |s| ==> s[i] == s[1..][i - 1];
      assert (exists i :: 0 <= i < |s| && Bare(s[i])) <==> Bare(s[0]) || exists i :: 0 <= i < |s[1..]| && Bare(s[1..][i]);
      LiteralsStep(s, []);
      assert Literals(s) + [] == Literals(s) && Literals(s[1..]) + [] == Literals(s[1..]);
    }
  }

  /** With the backslash escaped last, a text still reads back literally if and only if it has no
      comma, dot or equals sign. */
  lemma BackslashMustComeFirst(s: string)
    ensures Scan(EscapeLate(s)) == Some(Literals(s)) <==> !(exists i :: 0 <= i < |s| && Bare(s[i]))
  {
    LateReplacesAreOnePass(s);
    ScanLate(s);
    LateTokensAreMore(s);
  }

  lemma ScanBare(s: string, rest: string, c: char)
    requires s == [c] + rest && IsMeta(c) && c != '\\' && Scan(rest).Some?
    ensures Scan(s) == Some([Structure(c)] + Scan(rest).value)
  {
    assert s[1..] == rest;
  }
}
