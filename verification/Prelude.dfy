/** Small shared vocabulary: options, minimum and maximum, and the string primitives of the
    source language that several components rely on. */
module Prelude {

  datatype Option<+T> = None | Some(value: T)

  function Min(a: int, b: int): int {
    if a < b then a else b
  }

  function Max(a: int, b: int): int {
    if a > b then a else b
  }

  function MaxReal(a: real, b: real): real {
    if a > b then a else b
  }

  /** The ceiling of n/d, as the source writes it: (n + d - 1) // d. */
  function Ceil(n: nat, d: nat): nat
    requires d > 0
  {
    (n + d - 1) / d
  }

  lemma MulMono(a: int, b: int, c: int)
    requires a <= b && c >= 0
    ensures a * c <= b * c
  {
    assert (b - a) * c >= 0;
    assert (b - a) * c == b * c - a * c;
  }

  /** Integer division by a positive divisor, as two inequalities. */
  lemma DivBounds(n: nat, d: nat)
    requires d > 0
    ensures n / d * d <= n < n / d * d + d
  {
    assert n == n / d * d + n % d;
  }

  /** A quotient reaches q exactly when the dividend reaches q divisors. */
  lemma QuotientReaches(n: nat, d: nat, q: int)
    requires d > 0
    ensures n / d >= q <==> n >= q * d
  {
    DivBounds(n, d);
    if n / d >= q {
      MulMono(q, n / d, d);
    } else {
      MulMono(n / d + 1, q, d);
      assert (n / d + 1) * d == n / d * d + d;
    }
  }

  lemma Snoc<T>(s: seq<T>)
    requires s != []
    ensures s == s[..|s| - 1] + [s[|s| - 1]]
  {
  }

  /** `int(x)` on a float: truncation toward zero. */
  function Trunc(x: real): int {
    if x >= 0.0 then x.Floor else -((-x).Floor)
  }

  /** Whether `pat` occurs somewhere in `s`. */
  predicate Contains(s: string, pat: string) {
    pat <= s || (s != [] && Contains(s[1..], pat))
  }

  lemma {:induction false} ContainsIff(s: string, pat: string)
    ensures Contains(s, pat) <==> exists i :: 0 <= i <= |s| && pat <= s[i..]
  {
    if pat <= s {
      assert s[0..] == s;
    } else if s != [] {
      ContainsIff(s[1..], pat);
      forall i | 0 <= i <= |s[1..]| ensures s[1..][i..] == s[i + 1..] {}
      if i :| 0 <= i <= |s| && pat <= s[i..] {
        assert s[0..] == s;
        assert pat <= s[1..][i - 1..];
      }
    } else {
      assert forall i | 0 <= i <= |s| :: s[i..] == s;
    }
  }

  /** The characters removed by `str.strip()` and `str.rstrip()`. */
  predicate IsSpace(c: char) {
    || '\t' <= c <= '\r'
    || '\U{1c}' <= c <= ' '
    || c == '\U{85}' || c == '\U{a0}' || c == '\U{1680}'
    || '\U{2000}' <= c <= '\U{200a}'
    || c == '\U{2028}' || c == '\U{2029}' || c == '\U{202f}' || c == '\U{205f}' || c == '\U{3000}'
  }

  function TrimRight(s: string): string {
    if s != [] && IsSpace(s[|s| - 1]) then TrimRight(s[..|s| - 1]) else s
  }

  function TrimLeft(s: string): string {
    if s != [] && IsSpace(s[0]) then TrimLeft(s[1..]) else s
  }

  function Strip(s: string): string {
    TrimRight(TrimLeft(s))
  }

  /** What `strip` leaves: the text between the blanks at both ends. */
  lemma StripIsMiddle(s: string) returns (left: string, right: string)
    ensures s == left + Strip(s) + right
    ensures (forall c | c in left :: IsSpace(c)) && (forall c | c in right :: IsSpace(c))
    ensures Strip(s) != "" ==> !IsSpace(Strip(s)[0]) && !IsSpace(Strip(s)[|Strip(s)| - 1])
  {
    left := LeftBlanks(s);
    right := RightBlanks(TrimLeft(s));
    assert Strip(s) != "" ==> Strip(s)[0] == TrimLeft(s)[0];
    assert s == left + (Strip(s) + right);
  }

  lemma {:induction false} LeftBlanks(s: string) returns (left: string)
    ensures s == left + TrimLeft(s) && forall c | c in left :: IsSpace(c)
    ensures TrimLeft(s) != "" ==> !IsSpace(TrimLeft(s)[0])
  {
    left := "";
    if s != [] && IsSpace(s[0]) {
      left := LeftBlanks(s[1..]);
      left := [s[0]] + left;
    }
  }

  lemma {:induction false} RightBlanks(s: string) returns (right: string)
    ensures s == TrimRight(s) + right && forall c | c in right :: IsSpace(c)
    ensures TrimRight(s) != "" ==> !IsSpace(TrimRight(s)[|TrimRight(s)| - 1])
  {
    right := "";
    if s != [] && IsSpace(s[|s| - 1]) {
      right := RightBlanks(s[..|s| - 1]);
      right := right + [s[|s| - 1]];
    }
  }

  function LowerChar(c: char): char {
    if 'A' <= c <= 'Z' then (c as int + 32) as char else c
  }

  /** `str.lower()` on ASCII letters. */
  function Lower(s: string): string {
    seq(|s|, i requires 0 <= i < |s| => LowerChar(s[i]))
  }
}
