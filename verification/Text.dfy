/** Strings as the sandbox code builds them: one-character replaces, ASCII case mapping and
    decimal rendering. */
module Text {

  datatype Option<+T> = None | Some(value: T)

  datatype Result<+T, +E> = Ok(value: T) | Err(error: E)

  /** `s.replace(c, t)` for a pattern `c` of one character. */
  function Replace(s: string, c: char, t: string): string {
    if s == "" then "" else (if s[0] == c then t else [s[0]]) + Replace(s[1..], c, t)
  }

  lemma {:induction false} ReplaceAppends(a: string, b: string, c: char, t: string)
    ensures Replace(a + b, c, t) == Replace(a, c, t) + Replace(b, c, t)
  {
    if a == "" {
      assert a + b == b;
    } else {
      assert (a + b)[1..] == a[1..] + b;
      ReplaceAppends(a[1..], b, c, t);
    }
  }

  lemma ReplaceOne(x: char, c: char, t: string)
    ensures Replace([x], c, t) == if x == c then t else [x]
  {
  }

  lemma ReplaceTwo(x: char, y: char, c: char, t: string)
    requires x != c && y != c
    ensures Replace([x, y], c, t) == [x, y]
  {
    assert [x, y] == [x] + [y];
    ReplaceAppends([x], [y], c, t);
    ReplaceOne(x, c, t);
    ReplaceOne(y, c, t);
  }

  /** Two ways to cut one string, the first cut falling inside `u`. */
  lemma SplitWithin(a: string, b: string, u: string, t: string)
    requires a + b == u + t && |a| <= |u|
    ensures a == u[..|a|] && b == u[|a|..] + t
  {
    assert a == (a + b)[..|a|] == (u + t)[..|a|] == u[..|a|];
    assert b == (a + b)[|a|..] == (u + t)[|a|..] == u[|a|..] + t;
  }

  lemma Associates<T>(a: seq<T>, b: seq<T>, c: seq<T>)
    ensures a + b + c == a + (b + c)
  {
  }

  function Concat<T>(xs: seq<seq<T>>): seq<T> {
    if xs == [] then [] else xs[0] + Concat(xs[1..])
  }

  lemma {:induction false} ConcatAppends<T>(xs: seq<seq<T>>, ys: seq<seq<T>>)
    ensures Concat(xs + ys) == Concat(xs) + Concat(ys)
  {
    if xs == [] {
      assert xs + ys == ys;
    } else {
      assert (xs + ys)[1..] == xs[1..] + ys;
      ConcatAppends(xs[1..], ys);
    }
  }

  function UpperChar(c: char): char {
    if 'a' <= c <= 'z' then c - 'a' + 'A' else c
  }

  function LowerChar(c: char): char {
    if 'A' <= c <= 'Z' then c - 'A' + 'a' else c
  }

  const UPPER_LETTERS := "ABCDEFGHIJKLMNOPQRSTUVWXYZ"
  const LOWER_LETTERS := "abcdefghijklmnopqrstuvwxyz"

  lemma LetterPairs(i: nat)
    requires i < 26
    ensures UPPER_LETTERS[i] == 'A' + i as char && LOWER_LETTERS[i] == 'a' + i as char
  {
  }

  /** Each letter of the one case maps to that of the other, and no other character maps anywhere. */
  lemma LetterCase(c: char, i: nat)
    ensures i < 26 ==> LowerChar(UPPER_LETTERS[i]) == LOWER_LETTERS[i] && UpperChar(LOWER_LETTERS[i]) == UPPER_LETTERS[i]
    ensures c !in UPPER_LETTERS ==> LowerChar(c) == c
    ensures c !in LOWER_LETTERS ==> UpperChar(c) == c
  {
    if i < 26 {
      LetterPairs(i);
    }
    if 'A' <= c <= 'Z' {
      LetterPairs((c - 'A') as int);
    }
    if 'a' <= c <= 'z' {
      LetterPairs((c - 'a') as int);
    }
  }

  function Upper(s: string): (r: string)
    ensures |r| == |s| && forall i :: 0 <= i < |s| ==> r[i] == UpperChar(s[i])
  {
    seq(|s|, i requires 0 <= i < |s| => UpperChar(s[i]))
  }

  function Lower(s: string): (r: string)
    ensures |r| == |s| && forall i :: 0 <= i < |s| ==> r[i] == LowerChar(s[i])
  {
    seq(|s|, i requires 0 <= i < |s| => LowerChar(s[i]))
  }

  predicate IsDigit(c: char) {
    '0' <= c <= '9'
  }

  predicate AllDigits(s: string) {
    forall i :: 0 <= i < |s| ==> IsDigit(s[i])
  }

  function Digit(d: nat): char
    requires d < 10
  {
    ['0', '1', '2', '3', '4', '5', '6', '7', '8', '9'][d]
  }

  function DecimalNat(n: nat): (s: string)
    ensures s != "" && AllDigits(s)
  {
    if n < 10 then [Digit(n)] else DecimalNat(n / 10) + [Digit(n % 10)]
  }

  /** Go's `%v` and Python's `str` on an integer. */
  function Decimal(n: int): (s: string)
    ensures s != "" && (s[0] == '-' <==> n < 0) && '/' !in s
  {
    if n < 0 then "-" + DecimalNat(-n) else DecimalNat(n)
  }

  /** A numeral reads back as its number: each character is its digit's value in a base of ten. */
  function ReadNat(s: string): nat
    requires AllDigits(s)
  {
    if s == "" then 0 else 10 * ReadNat(s[..|s| - 1]) + (s[|s| - 1] as nat - '0' as nat)
  }

  lemma {:induction false} DecimalReads(n: nat)
    ensures ReadNat(DecimalNat(n)) == n
    ensures n > 0 ==> DecimalNat(n)[0] != '0'
  {
    var s := DecimalNat(n);
    assert s[|s| - 1] == Digit(n % 10) && Digit(n % 10) as nat - '0' as nat == n % 10;
    if n >= 10 {
      DecimalReads(n / 10);
      assert s[..|s| - 1] == DecimalNat(n / 10);
    } else {
      assert s[..0] == "";
    }
  }

  lemma DigitInjective(a: nat, b: nat)
    requires a < 10 && b < 10 && Digit(a) == Digit(b)
    ensures a == b
  {
  }

  lemma {:induction false} DecimalNatInjective(a: nat, b: nat)
    requires DecimalNat(a) == DecimalNat(b)
    ensures a == b
  {
    var s, t := DecimalNat(a), DecimalNat(b);
    assert s[|s| - 1] == Digit(a % 10) && t[|t| - 1] == Digit(b % 10);
    DigitInjective(a % 10, b % 10);
    if a >= 10 && b >= 10 {
      assert s[..|s| - 1] == DecimalNat(a / 10) && t[..|t| - 1] == DecimalNat(b / 10);
      DecimalNatInjective(a / 10, b / 10);
    }
  }

  lemma DecimalInjective(a: int, b: int)
    requires Decimal(a) == Decimal(b)
    ensures a == b
  {
    if a < 0 && b < 0 {
      assert Decimal(a)[1..] == DecimalNat(-a) && Decimal(b)[1..] == DecimalNat(-b);
      DecimalNatInjective(-a, -b);
    } else if a >= 0 && b >= 0 {
      DecimalNatInjective(a, b);
    }
  }
}
