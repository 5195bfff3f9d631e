/** The HTTP Host check of the egress policy: a domain glob rewritten into an anchored regular
    expression. The rewrite is checked against what the expression means: a parser and a matcher
    for the RE2 fragment it lands in. */
module HostGlob {
  import opened Text

  // ---- The rewrite ----

  function Translate(pattern: string): string {
    Replace(Replace(pattern, '.', "[.]"), '*', "[^.]+")
  }

  function HostRegex(pattern: string): string {
    "(?i)^" + Translate(pattern) + "(:[0-9]+)?$"
  }

  function Piece(c: char): string {
    if c == '.' then ['[', '.', ']'] else if c == '*' then ['[', '^', '.', ']', '+'] else [c]
  }

  function TranslateOnePass(p: string): string {
    if p == "" then "" else Piece(p[0]) + TranslateOnePass(p[1..])
  }

  lemma TranslateOne(x: char)
    ensures Translate([x]) == Piece(x)
  {
    ReplaceOne(x, '.', "[.]");
    ReplaceOne(x, '*', "[^.]+");
    if x == '.' {
      assert "[.]" == ['['] + ['.', ']'];
      ReplaceAppends(['['], ['.', ']'], '*', "[^.]+");
      ReplaceOne('[', '*', "[^.]+");
      ReplaceTwo('.', ']', '*', "[^.]+");
    }
  }

  /** The second replace never touches what the first one wrote. */
  lemma {:induction false} TwoReplacesAreOnePass(p: string)
    ensures Translate(p) == TranslateOnePass(p)
  {
    if p != "" {
      assert p == [p[0]] + p[1..];
      ReplaceAppends([p[0]], p[1..], '.', "[.]");
      ReplaceAppends(Replace([p[0]], '.', "[.]"), Replace(p[1..], '.', "[.]"), '*', "[^.]+");
      TranslateOne(p[0]);
      TwoReplacesAreOnePass(p[1..]);
    }
  }

  // ---- What a glob describes ----

  predicate NoDot(s: string) {
    forall i :: 0 <= i < |s| ==> s[i] != '.'
  }

  ghost predicate GlobMatches(p: string, h: string) {
    if p == "" then h == ""
    else if p[0] == '*' then
      exists k :: 1 <= k <= |h| && NoDot(h[..k]) && GlobMatches(p[1..], h[k..])
    else h != "" && LowerChar(p[0]) == LowerChar(h[0]) && GlobMatches(p[1..], h[1..])
  }

  predicate OptionalPort(s: string) {
    s == "" || (|s| >= 2 && s[0] == ':' && AllDigits(s[1..]))
  }

  /** The glob describes the host, up to case and an optional numeric port. */
  ghost predicate GlobDescribes(p: string, h: string) {
    exists k :: 0 <= k <= |h| && GlobMatches(p, h[..k]) && OptionalPort(h[k..])
  }

  // ---- What a regular expression means ----

  datatype Range = Range(lo: char, hi: char)
  datatype Atom = Lit(c: char) | Any | Class(negated: bool, ranges: seq<Range>) | Group(body: seq<Item>)
  datatype Quantifier = One | Opt | Star | Plus
  datatype Item = Item(atom: Atom, quantifier: Quantifier)
  datatype Regex = Regex(ignoreCase: bool, items: seq<Item>)

  predicate InRanges(rs: seq<Range>, h: char) {
    exists i :: 0 <= i < |rs| && rs[i].lo <= h <= rs[i].hi
  }

  predicate InClass(rs: seq<Range>, h: char, ignoreCase: bool) {
    InRanges(rs, h) || (ignoreCase && (InRanges(rs, LowerChar(h)) || InRanges(rs, UpperChar(h))))
  }

  ghost predicate AtomMatches(a: Atom, s: string, ignoreCase: bool)
    decreases a, 0, 0
  {
    match a
    case Lit(c) => |s| == 1 && (s[0] == c || (ignoreCase && LowerChar(s[0]) == LowerChar(c)))
    case Any => |s| == 1 && s[0] != '\n'
    case Class(negated, rs) => |s| == 1 && InClass(rs, s[0], ignoreCase) != negated
    case Group(body) => ItemsMatch(body, s, ignoreCase)
  }

  /** One or more copies of the atom. */
  ghost predicate Repeats(a: Atom, s: string, ignoreCase: bool)
    decreases a, 1, |s|
  {
    || AtomMatches(a, s, ignoreCase)
    || exists k :: 0 < k < |s| && AtomMatches(a, s[..k], ignoreCase) && Repeats(a, s[k..], ignoreCase)
  }

  ghost predicate ItemMatches(item: Item, s: string, ignoreCase: bool)
    decreases item, 0, 0
  {
    match item.quantifier
    case One => AtomMatches(item.atom, s, ignoreCase)
    case Opt => s == "" || AtomMatches(item.atom, s, ignoreCase)
    case Star => s == "" || Repeats(item.atom, s, ignoreCase)
    case Plus => Repeats(item.atom, s, ignoreCase)
  }

  ghost predicate ItemsMatch(items: seq<Item>, s: string, ignoreCase: bool)
    decreases items, 0, 0
  {
    if items == [] then s == ""
    else exists k :: 0 <= k <= |s| && ItemMatches(items[0], s[..k], ignoreCase)
                     && ItemsMatch(items[1..], s[k..], ignoreCase)
  }

  ghost predicate Accepts(re: Regex, h: string) {
    ItemsMatch(re.items, h, re.ignoreCase)
  }

  // ---- Reading a regular expression ----

  predicate IsMeta(c: char) {
    || c == '\\' || c == '.' || c == '*' || c == '+' || c == '?' || c == '(' || c == ')' || c == '|'
    || c == '[' || c == ']' || c == '{' || c == '}' || c == '^' || c == '$'
  }

  function ParseRanges(s: string): (r: Option<(seq<Range>, string)>)
    ensures r.Some? ==> |r.value.1| < |s|
  {
    if s == "" || s[0] == '\\' || s[0] == '[' then None
    else if s[0] == ']' then Some(([], s[1..]))
    else
      var wide := |s| >= 3 && s[1] == '-' && s[2] != ']';
      match ParseRanges(if wide then s[3..] else s[1..])
      case None => None
      case Some((rs, rest)) => Some(([Range(s[0], if wide then s[2] else s[0])] + rs, rest))
  }

  function ParseQuantifier(s: string): (r: (Quantifier, string))
    ensures |r.1| <= |s|
  {
    if s != "" && s[0] == '?' then (Opt, s[1..])
    else if s != "" && s[0] == '*' then (Star, s[1..])
    else if s != "" && s[0] == '+' then (Plus, s[1..])
    else (One, s)
  }

  function ParseAtom(s: string): (r: Option<(Atom, string)>)
    requires s != ""
    ensures r.Some? ==> |r.value.1| < |s|
    decreases |s|, 0
  {
    if s[0] == '(' then
      match ParseItems(s[1..])
      case None => None
      case Some((body, rest)) => if rest != "" && rest[0] == ')' then Some((Group(body), rest[1..])) else None
    else if s[0] == '[' then
      var negated := |s| >= 2 && s[1] == '^';
      match ParseRanges(if negated then s[2..] else s[1..])
      case None => None
      case Some((rs, rest)) => Some((Class(negated, rs), rest))
    else if s[0] == '.' then Some((Any, s[1..]))
    else if IsMeta(s[0]) then None
    else Some((Lit(s[0]), s[1..]))
  }

  function ParseItems(s: string): (r: Option<(seq<Item>, string)>)
    ensures r.Some? ==> |r.value.1| <= |s|
    decreases |s|, 1
  {
    if s == "" || s[0] == ')' then Some(([], s))
    else
      match ParseAtom(s)
      case None => None
      case Some((atom, afterAtom)) =>
        var (quantifier, rest) := ParseQuantifier(afterAtom);
        match ParseItems(rest)
        case None => None
        case Some((items, tail)) => Some(([Item(atom, quantifier)] + items, tail))
  }

  /** An anchored expression, `^...$`, with an optional case-insensitivity flag in front. */
  function ParseAnchored(s: string): Option<Regex> {
    var ignoreCase := |s| >= 4 && s[..4] == "(?i)";
    var t := if ignoreCase then s[4..] else s;
    if |t| < 2 || t[0] != '^' || t[|t| - 1] != '$' then None
    else
      match ParseItems(t[1..|t| - 1])
      case None => None
      case Some((items, rest)) => if rest == "" then Some(Regex(ignoreCase, items)) else None
  }

  // ---- The rewrite is read back as the glob ----

  /** No regular-expression metacharacter other than the two the rewrite handles. Letters,
      digits, `-`, `_`, `.` and `*` all qualify. */
  predicate PlainPattern(p: string) {
    forall i :: 0 <= i < |p| ==> IsMeta(p[i]) ==> p[i] == '.' || p[i] == '*'
  }

  const DOT := Class(false, [Range('.', '.')])
  const NOT_DOT := Class(true, [Range('.', '.')])
  const DIGITS := Class(false, [Range('0', '9')])
  const PORT := Item(Group([Item(Lit(':'), One), Item(DIGITS, Plus)]), Opt)

  function GlobItem(c: char): Item {
    if c == '.' then Item(DOT, One) else if c == '*' then Item(NOT_DOT, Plus) else Item(Lit(c), One)
  }

  function GlobItems(p: string): seq<Item> {
    if p == "" then [] else [GlobItem(p[0])] + GlobItems(p[1..])
  }

  /** A class of one range, closed right away. */
  lemma ParseOneRange(s: string, lo: char, hi: char)
    requires (!IsMeta(lo) && !IsMeta(hi)) || lo == hi == '.'
    requires if lo == hi then |s| >= 2 && s[0] == lo && s[1] == ']'
             else |s| >= 4 && s[0] == lo && s[1] == '-' && s[2] == hi && s[3] == ']'
    ensures ParseRanges(s) == Some(([Range(lo, hi)], s[if lo == hi then 2 else 4..]))
  {
    var rest := if lo == hi then s[1..] else s[3..];
    assert ParseRanges(rest) == Some(([], rest[1..]));
    assert [Range(lo, hi)] + [] == [Range(lo, hi)];
  }

  /** One more item in front of what parses already. */
  lemma ParseOneItem(s: string, atom: Atom, afterAtom: string)
    requires s != "" && s[0] != ')' && ParseAtom(s) == Some((atom, afterAtom))
    requires ParseItems(ParseQuantifier(afterAtom).1).Some?
    ensures var (q, rest) := ParseQuantifier(afterAtom);
            ParseItems(s) == Some(([Item(atom, q)] + ParseItems(rest).value.0, ParseItems(rest).value.1))
  {
  }

  lemma ParsePortDigits(s: string)
    requires s == "[0-9]+)?"
    ensures ParseItems(s) == Some(([Item(DIGITS, Plus)], s[6..]))
  {
    assert s[1] == '0' && s[1..][1] == '-' && s[1..][2] == '9' && s[1..][3] == ']';
    ParseOneRange(s[1..], '0', '9');
    assert s[1..][4..] == s[5..] && s[5..][0] == '+' && s[5..][1..] == s[6..] && s[6] == ')';
    assert ParseItems(s[6..]) == Some(([], s[6..]));
    ParseOneItem(s, DIGITS, s[5..]);
    assert [Item(DIGITS, Plus)] + [] == [Item(DIGITS, Plus)];
  }

  lemma ParsePortBody(s: string)
    requires s == ":[0-9]+)?"
    ensures ParseItems(s) == Some(([Item(Lit(':'), One), Item(DIGITS, Plus)], s[7..]))
  {
    ParsePortDigits(s[1..]);
    ParseOneItem(s, Lit(':'), s[1..]);
    assert [Item(Lit(':'), One)] + [Item(DIGITS, Plus)] == [Item(Lit(':'), One), Item(DIGITS, Plus)];
    assert s[1..][6..] == s[7..];
  }

  lemma ParsePort(s: string)
    requires s == "(:[0-9]+)?"
    ensures ParseItems(s) == Some(([PORT], ""))
  {
    ParsePortBody(s[1..]);
    assert s[1..][7..][1..] == s[9..] && s[9] == '?' && s[9..][1..] == "";
    ParseOneItem(s, PORT.atom, s[9..]);
    assert ParseItems("") == Some(([], ""));
    assert [PORT] + [] == [PORT];
  }

  lemma ParsePiece(c: char, rest: string)
    requires IsMeta(c) ==> c == '.' || c == '*'
    requires rest != "" && ParseQuantifier(rest).0 == One && ParseItems(rest).Some?
    ensures ParseItems(Piece(c) + rest)
         == Some(([GlobItem(c)] + ParseItems(rest).value.0, ParseItems(rest).value.1))
  {
    var s := Piece(c) + rest;
    if c == '.' {
      assert s[0] == '[' && s[1..][0] == '.' && s[1..][1] == ']';
      ParseOneRange(s[1..], '.', '.');
      assert s[1..][2..] == rest;
      ParseOneItem(s, DOT, rest);
    } else if c == '*' {
      assert s[0] == '[' && s[1] == '^' && s[2..][0] == '.' && s[2..][1] == ']' && s[4] == '+';
      ParseOneRange(s[2..], '.', '.');
      assert s[2..][2..] == s[4..] && s[4..][1..] == rest;
      ParseOneItem(s, NOT_DOT, s[4..]);
    } else {
      assert s[0] == c && s[1..] == rest;
      ParseOneItem(s, Lit(c), rest);
    }
  }

  lemma NotAQuantifier(p: string, tail: string)
    requires PlainPattern(p) && tail != "" && tail[0] == '('
    ensures var s := TranslateOnePass(p) + tail; s != "" && ParseQuantifier(s).0 == One
  {
    if p != "" {
      var s := TranslateOnePass(p) + tail;
      assert s[0] == Piece(p[0])[0];
    }
  }

  lemma TranslationStep(p: string, tail: string, items: seq<Item>)
    requires p != ""
    ensures TranslateOnePass(p) + tail == Piece(p[0]) + (TranslateOnePass(p[1..]) + tail)
    ensures GlobItems(p) + items == [GlobItem(p[0])] + (GlobItems(p[1..]) + items)
  {
    Associates(Piece(p[0]), TranslateOnePass(p[1..]), tail);
    Associates([GlobItem(p[0])], GlobItems(p[1..]), items);
  }

  lemma {:induction false} ParseTranslation(p: string, tail: string, items: seq<Item>)
    requires PlainPattern(p)
    requires tail != "" && tail[0] == '(' && ParseItems(tail) == Some((items, ""))
    ensures ParseItems(TranslateOnePass(p) + tail) == Some((GlobItems(p) + items, ""))
  {
    if p == "" {
      assert TranslateOnePass(p) + tail == tail && GlobItems(p) + items == items;
    } else {
      var rest := TranslateOnePass(p[1..]) + tail;
      ParseTranslation(p[1..], tail, items);
      NotAQuantifier(p[1..], tail);
      ParsePiece(p[0], rest);
      TranslationStep(p, tail, items);
    }
  }

  // ---- The items match what the glob describes ----

  lemma {:induction false} RepeatsOfOneChar(a: Atom, s: string, ci: bool)
    requires a.Class?
    ensures Repeats(a, s, ci) <==>
            s != "" && forall i :: 0 <= i < |s| ==> InClass(a.ranges, s[i], ci) != a.negated
  {
    if |s| >= 2 {
      RepeatsOfOneChar(a, s[1..], ci);
      assert forall k :: 0 < k < |s| && |s[..k]| == 1 ==> k == 1;
      if forall i :: 0 <= i < |s| ==> InClass(a.ranges, s[i], ci) != a.negated {
        assert AtomMatches(a, s[..1], ci) && Repeats(a, s[1..], ci);
      }
    }
  }

  lemma OneRange(lo: char, hi: char, h: char)
    ensures InRanges([Range(lo, hi)], h) <==> lo <= h <= hi
  {
    var rs := [Range(lo, hi)];
    assert rs[0] == Range(lo, hi);
  }

  lemma DotClasses(h: char)
    ensures InClass([Range('.', '.')], h, true) <==> h == '.'
    ensures InClass([Range('0', '9')], h, true) <==> IsDigit(h)
  {
    OneRange('.', '.', h);
    OneRange('.', '.', LowerChar(h));
    OneRange('.', '.', UpperChar(h));
    OneRange('0', '9', h);
    OneRange('0', '9', LowerChar(h));
    OneRange('0', '9', UpperChar(h));
  }

  lemma SplitItems(items: seq<Item>, h: string, k: int)
    requires items != [] && 0 <= k <= |h|
    requires ItemMatches(items[0], h[..k], true) && ItemsMatch(items[1..], h[k..], true)
    ensures ItemsMatch(items, h, true)
  {
  }

  lemma WholeMatch(item: Item, h: string)
    ensures ItemsMatch([item], h, true) <==> ItemMatches(item, h, true)
  {
    var items := [item];
    assert items[1..] == [] && h[..|h|] == h && h[|h|..] == "";
    if ItemsMatch(items, h, true) {
      var k :| 0 <= k <= |h| && ItemMatches(items[0], h[..k], true) && ItemsMatch(items[1..], h[k..], true);
      assert k == |h|;
    } else if ItemMatches(item, h, true) {
      SplitItems(items, h, |h|);
    }
  }

  lemma PortMatches(h: string)
    ensures ItemsMatch([PORT], h, true) <==> OptionalPort(h)
  {
    WholeMatch(PORT, h);
    var body := PORT.atom.body;
    if h != "" {
      var t := h[1..];
      assert body[0] == Item(Lit(':'), One) && body[1..] == [Item(DIGITS, Plus)];
      WholeMatch(Item(DIGITS, Plus), t);
      RepeatsOfOneChar(DIGITS, t, true);
      forall i | 0 <= i < |t| ensures InClass(DIGITS.ranges, t[i], true) <==> IsDigit(t[i]) {
        DotClasses(t[i]);
      }
      assert |h[..1]| == 1 && h[..1][0] == h[0];
      if ItemsMatch(body, h, true) {
        var k :| 0 <= k <= |h| && ItemMatches(body[0], h[..k], true) && ItemsMatch(body[1..], h[k..], true);
        assert k == 1;
      } else if OptionalPort(h) {
        SplitItems(body, h, 1);
      }
    }
  }

  lemma PeelGlob(p: string, g: string) returns (k: int)
    requires p != "" && GlobMatches(p, g)
    ensures 1 <= k <= |g| && GlobMatches(p[1..], g[k..])
    ensures if p[0] == '*' then NoDot(g[..k]) else k == 1 && LowerChar(p[0]) == LowerChar(g[0])
  {
    if p[0] == '*' {
      k :| 1 <= k <= |g| && NoDot(g[..k]) && GlobMatches(p[1..], g[k..]);
    } else {
      k := 1;
    }
  }

  lemma CutTwice(h: string, m: int, k: int)
    requires 0 <= k <= m <= |h|
    ensures h[..m][..k] == h[..k] && h[..m][k..] == h[k..][..m - k] && h[k..][m - k..] == h[m..]
  {
  }

  lemma DescribesForth(p: string, h: string) returns (k: int)
    requires p != "" && GlobDescribes(p, h)
    ensures 1 <= k <= |h| && GlobDescribes(p[1..], h[k..])
    ensures if p[0] == '*' then NoDot(h[..k]) else k == 1 && LowerChar(p[0]) == LowerChar(h[0])
  {
    var m :| 0 <= m <= |h| && GlobMatches(p, h[..m]) && OptionalPort(h[m..]);
    k := PeelGlob(p, h[..m]);
    CutTwice(h, m, k);
    assert GlobMatches(p[1..], h[k..][..m - k]) && OptionalPort(h[k..][m - k..]);
  }

  /** Peeling one glob character off both sides. */
  lemma DescribesStep(p: string, h: string)
    requires p != ""
    ensures GlobDescribes(p, h) <==>
            if p[0] == '*' then exists k :: 1 <= k <= |h| && NoDot(h[..k]) && GlobDescribes(p[1..], h[k..])
            else h != "" && LowerChar(p[0]) == LowerChar(h[0]) && GlobDescribes(p[1..], h[1..])
  {
    if GlobDescribes(p, h) {
      var k := DescribesForth(p, h);
    }
    if p[0] == '*' {
      forall k | 1 <= k <= |h| && NoDot(h[..k]) && GlobDescribes(p[1..], h[k..]) ensures GlobDescribes(p, h) {
        DescribesBack(p, h, k);
      }
    } else if h != "" && LowerChar(p[0]) == LowerChar(h[0]) && GlobDescribes(p[1..], h[1..]) {
      DescribesBack(p, h, 1);
    }
  }

  lemma DescribesBack(p: string, h: string, k: int)
    requires p != "" && 1 <= k <= |h| && GlobDescribes(p[1..], h[k..])
    requires if p[0] == '*' then NoDot(h[..k]) else k == 1 && LowerChar(p[0]) == LowerChar(h[0])
    ensures GlobDescribes(p, h)
  {
    var t := h[k..];
    var m :| 0 <= m <= |t| && GlobMatches(p[1..], t[..m]) && OptionalPort(t[m..]);
    var g := h[..k + m];
    assert g[..k] == h[..k] && g[k..] == t[..m] && h[k + m..] == t[m..];
    assert GlobMatches(p, g);
  }

  lemma {:induction false} ItemsMatchGlob(p: string, h: string)
    ensures ItemsMatch(GlobItems(p) + [PORT], h, true) <==> GlobDescribes(p, h)
  {
    var items := GlobItems(p) + [PORT];
    if p == "" {
      assert items == [PORT];
      PortMatches(h);
      assert h[..0] == "" && h[0..] == h;
    } else {
      var rest := GlobItems(p[1..]) + [PORT];
      assert items[0] == GlobItem(p[0]) && items[1..] == rest;
      DescribesStep(p, h);
      forall k | 0 <= k <= |h|
        ensures ItemMatches(items[0], h[..k], true) <==>
                k >= 1 && if p[0] == '*' then NoDot(h[..k]) else k == 1 && LowerChar(p[0]) == LowerChar(h[0])
      {
        forall i | 0 <= i < k ensures InClass([Range('.', '.')], h[i], true) <==> h[i] == '.' { DotClasses(h[i]); }
        RepeatsOfOneChar(NOT_DOT, h[..k], true);
        assert k >= 1 ==> h[..k][0] == h[0];
      }
      forall k | 0 <= k <= |h| ensures ItemsMatch(rest, h[k..], true) <==> GlobDescribes(p[1..], h[k..]) {
        ItemsMatchGlob(p[1..], h[k..]);
      }
      if GlobDescribes(p, h) {
        var k :| 1 <= k <= |h| && GlobDescribes(p[1..], h[k..]) &&
                 if p[0] == '*' then NoDot(h[..k]) else k == 1 && LowerChar(p[0]) == LowerChar(h[0]);
        SplitItems(items, h, k);
      }
    }
  }

  /** The rendered Host line is a case-insensitive anchored expression: the glob's items, then an
      optional port. */
  lemma HostRegexReads(p: string)
    requires PlainPattern(p)
    ensures ParseAnchored(HostRegex(p)) == Some(Regex(true, GlobItems(p) + [PORT]))
  {
    TwoReplacesAreOnePass(p);
    var port := "(:[0-9]+)?";
    var body := TranslateOnePass(p) + port;
    var flag := "(?i)";
    var t := "^" + body + "$";
    assert HostRegex(p) == flag + t;
    assert (flag + t)[..4] == flag && (flag + t)[4..] == t && t[1..|t| - 1] == body;
    ParsePort(port);
    ParseTranslation(p, port, [PORT]);
  }

  /** The rendered Host line accepts exactly the hosts the glob describes. */
  lemma HostRegexMeansGlob(p: string, h: string)
    requires PlainPattern(p)
    ensures var re := ParseAnchored(HostRegex(p)); re.Some? && (Accepts(re.value, h) <==> GlobDescribes(p, h))
  {
    HostRegexReads(p);
    ItemsMatchGlob(p, h);
  }

  // ---- The order of the replaces ----

  /** The same replaces in the other order. */
  function TranslateLate(p: string): string {
    Replace(Replace(p, '*', "[^.]+"), '.', "[.]")
  }

  function LatePiece(c: char): string {
    if c == '*' then ['[', '^', '[', '.', ']', ']', '+'] else Piece(c)
  }

  lemma LateOne(x: char)
    ensures TranslateLate([x]) == LatePiece(x)
  {
    ReplaceOne(x, '*', "[^.]+");
    ReplaceOne(x, '.', "[.]");
    if x == '*' {
      ReplaceTwo('[', '^', '.', "[.]");
      ReplaceTwo(']', '+', '.', "[.]");
      ReplaceOne('.', '.', "[.]");
      assert "[^.]+" == ['[', '^'] + (['.'] + [']', '+']);
      ReplaceAppends(['.'], [']', '+'], '.', "[.]");
      ReplaceAppends(['[', '^'], ['.'] + [']', '+'], '.', "[.]");
    }
  }

  lemma {:induction false} LateLength(p: string)
    ensures |TranslateLate(p)| >= |Translate(p)|
    ensures '*' in p <==> |TranslateLate(p)| > |Translate(p)|
    ensures '*' !in p ==> TranslateLate(p) == Translate(p)
  {
    if p != "" {
      var a, b := [p[0]], p[1..];
      assert p == a + b;
      ReplaceAppends(a, b, '*', "[^.]+");
      ReplaceAppends(Replace(a, '*', "[^.]+"), Replace(b, '*', "[^.]+"), '.', "[.]");
      ReplaceAppends(a, b, '.', "[.]");
      ReplaceAppends(Replace(a, '.', "[.]"), Replace(b, '.', "[.]"), '*', "[^.]+");
      LateOne(p[0]);
      TranslateOne(p[0]);
      LateLength(b);
    }
  }

  /** The order of the replaces matters exactly to the patterns with a star. */
  lemma DotMustComeFirst(p: string)
    ensures TranslateLate(p) == Translate(p) <==> '*' !in p
  {
    LateLength(p);
  }
}
