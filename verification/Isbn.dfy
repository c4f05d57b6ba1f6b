/** ISBN check digits: what the two checks accept, and which errors they catch. */
module Isbn {
  import opened Options

  predicate IsDigit(c: char) {
    '0' <= c <= '9'
  }

  function Digit(c: char): int {
    c as int - '0' as int
  }

  /** The value of a symbol of an ISBN-10; only the last may be X or x. */
  function Symbol(s: string, i: nat): int
    requires i < |s|
  {
    if i == 9 && (s[i] == 'X' || s[i] == 'x') then 10 else Digit(s[i])
  }

  predicate WellFormed10(s: string) {
    |s| == 10 && (forall i :: 0 <= i < 9 ==> IsDigit(s[i])) && (IsDigit(s[9]) || s[9] == 'X' || s[9] == 'x')
  }

  predicate WellFormed13(s: string) {
    |s| == 13 && forall i :: 0 <= i < 13 ==> IsDigit(s[i])
  }

  /** Weights 10, 9, ..., 1. */
  function Sum10(s: string, n: nat): int
    requires n <= |s|
  {
    if n == 0 then 0 else Sum10(s, n - 1) + Symbol(s, n - 1) * (11 - n)
  }

  /** Weights 1, 3, 1, 3, ... */
  function Sum13(s: string, n: nat): int
    requires n <= |s|
  {
    if n == 0 then 0 else Sum13(s, n - 1) + Digit(s[n - 1]) * (if n % 2 == 1 then 1 else 3)
  }

  predicate Accepted10(s: string) {
    WellFormed10(s) && Sum10(s, 10) % 11 == 0
  }

  predicate Accepted13(s: string) {
    WellFormed13(s) && Sum13(s, 13) % 10 == 0
  }

  /** strconv.Atoi of one character; None for its error. */
  function Atoi(c: char): Option<int> {
    if IsDigit(c) then Some(Digit(c)) else None
  }

  method IsValidISBN10(isbn: string) returns (ok: bool)
    requires |isbn| == 10
    ensures ok <==> Accepted10(isbn)
  {
    var sum := 0;
    var i := 0;
    while i < 9
      invariant 0 <= i <= 9 && forall k :: 0 <= k < i ==> IsDigit(isbn[k])
      invariant sum == Sum10(isbn, i)
    {
      var digit := Atoi(isbn[i]);
      if digit.None? {
        return false;
      }
      sum := sum + digit.value * (10 - i);
      i := i + 1;
    }
    var last := isbn[9];
    if last == 'X' || last == 'x' {
      sum := sum + 10;
    } else {
      var digit := Atoi(last);
      if digit.None? {
        return false;
      }
      sum := sum + digit.value;
    }
    ok := sum % 11 == 0;
  }

  method IsValidISBN13(isbn: string) returns (ok: bool)
    requires |isbn| == 13
    ensures ok <==> Accepted13(isbn)
  {
    var sum := 0;
    var i := 0;
    while i < 13
      invariant 0 <= i <= 13 && forall k :: 0 <= k < i ==> IsDigit(isbn[k])
      invariant sum == Sum13(isbn, i)
    {
      var digit := Atoi(isbn[i]);
      if digit.None? {
        return false;
      }
      if i % 2 == 0 {
        sum := sum + digit.value;
      } else {
        sum := sum + digit.value * 3;
      }
      i := i + 1;
    }
    ok := sum % 10 == 0;
  }

  method IsValidISBN(isbn: string) returns (ok: bool)
    ensures ok <==> Accepted10(isbn) || Accepted13(isbn)
  {
    if |isbn| == 10 {
      ok := IsValidISBN10(isbn);
    } else if |isbn| == 13 {
      ok := IsValidISBN13(isbn);
    } else {
      ok := false;
    }
  }

  // ---------------------------------------------------------------- the sums written out

  /** The value of a digit; 0 for any other character. */
  function V(c: char): int {
    if c == '1' then 1 else if c == '2' then 2 else if c == '3' then 3 else if c == '4' then 4
    else if c == '5' then 5 else if c == '6' then 6 else if c == '7' then 7 else if c == '8' then 8
    else if c == '9' then 9 else 0
  }

  /** The weighted sum of nine digits. */
  function Written9(s: string): int
    requires |s| >= 9
  {
    10 * V(s[0]) + 9 * V(s[1]) + 8 * V(s[2]) + 7 * V(s[3]) + 6 * V(s[4]) + 5 * V(s[5]) + 4 * V(s[6]) + 3 * V(s[7])
    + 2 * V(s[8])
  }

  /** The weighted sum of twelve digits. */
  function Written12(s: string): int
    requires |s| >= 12
  {
    V(s[0]) + 3 * V(s[1]) + V(s[2]) + 3 * V(s[3]) + V(s[4]) + 3 * V(s[5]) + V(s[6]) + 3 * V(s[7]) + V(s[8])
    + 3 * V(s[9]) + V(s[10]) + 3 * V(s[11])
  }

  /** The value of the last symbol of an ISBN-10. */
  function Last10(s: string): int
    requires |s| == 10
  {
    if s[9] == 'X' || s[9] == 'x' then 10 else V(s[9])
  }

  lemma DigitIsV(c: char)
    requires IsDigit(c)
    ensures Digit(c) == V(c)
  {
  }

  lemma Next10(s: string, n: nat)
    requires WellFormed10(s) && n < 9
    ensures Sum10(s, n + 1) == Sum10(s, n) + V(s[n]) * (10 - n)
  {
    DigitIsV(s[n]);
  }

  lemma End10(s: string)
    requires WellFormed10(s)
    ensures Sum10(s, 10) == Sum10(s, 9) + Last10(s)
  {
    if IsDigit(s[9]) {
      DigitIsV(s[9]);
    }
  }

  /** Partial sums with the weights 10, 9, ..., 2, written out. */
  lemma AddUp10(p: seq<int>, v: seq<int>)
    requires |p| == 10 && |v| == 9 && p[0] == 0
    requires forall n :: 0 <= n < 9 ==> p[n + 1] == p[n] + v[n] * (10 - n)
    ensures p[9] == 10 * v[0] + 9 * v[1] + 8 * v[2] + 7 * v[3] + 6 * v[4] + 5 * v[5] + 4 * v[6] + 3 * v[7] + 2 * v[8]
  {
    assert p[0 + 1] == 10 * v[0] && p[1 + 1] == p[1] + 9 * v[1] && p[2 + 1] == p[2] + 8 * v[2];
    assert p[3 + 1] == p[3] + 7 * v[3] && p[4 + 1] == p[4] + 6 * v[4] && p[5 + 1] == p[5] + 5 * v[5];
    assert p[6 + 1] == p[6] + 4 * v[6] && p[7 + 1] == p[7] + 3 * v[7] && p[8 + 1] == p[8] + 2 * v[8];
  }

  lemma Sum10Is(s: string)
    requires WellFormed10(s)
    ensures Sum10(s, 10) == Written9(s) + Last10(s)
  {
    var p := seq(10, n requires 0 <= n < 10 => Sum10(s, n));
    var v := seq(9, n requires 0 <= n < 9 => V(s[n]));
    forall n | 0 <= n < 9 ensures p[n + 1] == p[n] + v[n] * (10 - n) {
      Next10(s, n);
    }
    AddUp10(p, v);
    End10(s);
  }

  lemma Next13(s: string, n: nat)
    requires WellFormed13(s) && n < 13
    ensures Sum13(s, n + 1) == Sum13(s, n) + if n % 2 == 0 then V(s[n]) else 3 * V(s[n])
  {
    DigitIsV(s[n]);
  }

  lemma Four13(s: string, n: nat)
    requires WellFormed13(s) && n < 10 && n % 2 == 0
    ensures Sum13(s, n + 4) == Sum13(s, n) + V(s[n]) + 3 * V(s[n + 1]) + V(s[n + 2]) + 3 * V(s[n + 3])
  {
    Next13(s, n);
    Next13(s, n + 1);
    Next13(s, n + 2);
    Next13(s, n + 3);
  }

  lemma Sum13Is(s: string)
    requires WellFormed13(s)
    ensures Sum13(s, 13) == Written12(s) + V(s[12])
  {
    Four13(s, 0);
    Four13(s, 4);
    Four13(s, 8);
    Next13(s, 12);
    assert Sum13(s, 0) == 0;
  }

  /** Ten symbols are accepted exactly when they are well formed and their written-out sum is divisible by 11. */
  lemma Accepted10Iff(s: string)
    requires |s| == 10
    ensures Accepted10(s) <==>
            && (forall i :: 0 <= i < 9 ==> '0' <= s[i] <= '9')
            && ('0' <= s[9] <= '9' || s[9] == 'X' || s[9] == 'x')
            && (10 * V(s[0]) + 9 * V(s[1]) + 8 * V(s[2]) + 7 * V(s[3]) + 6 * V(s[4]) + 5 * V(s[5]) + 4 * V(s[6])
                + 3 * V(s[7]) + 2 * V(s[8]) + Last10(s)) % 11 == 0
  {
    if WellFormed10(s) {
      Sum10Is(s);
    }
  }

  /** Thirteen digits are accepted exactly when their written-out sum is divisible by 10. */
  lemma Accepted13Iff(s: string)
    requires |s| == 13
    ensures Accepted13(s) <==>
            && (forall i :: 0 <= i < 13 ==> '0' <= s[i] <= '9')
            && (V(s[0]) + 3 * V(s[1]) + V(s[2]) + 3 * V(s[3]) + V(s[4]) + 3 * V(s[5]) + V(s[6]) + 3 * V(s[7])
                + V(s[8]) + 3 * V(s[9]) + V(s[10]) + 3 * V(s[11]) + V(s[12])) % 10 == 0
  {
    if WellFormed13(s) {
      Sum13Is(s);
    }
  }

  lemma ZerosAccepted()
    ensures Accepted10("0000000000") && Accepted13("0000000000000")
  {
    var s, t := "0000000000", "0000000000000";
    Accepted10Iff(s);
    Accepted13Iff(t);
  }

  // ---------------------------------------------------------------- changing one symbol

  lemma Distribute(a: int, b: int, w: int)
    ensures a * w - b * w == (a - b) * w
  {
  }

  /** The weighted sums of two strings that differ at most at position `k`. */
  lemma {:induction false} OneChange10(s: string, t: string, k: nat, n: nat)
    requires n <= |s| && n <= |t| && k < |s| && k < |t|
    requires forall i :: 0 <= i < n && i != k ==> Symbol(s, i) == Symbol(t, i)
    ensures Sum10(s, n) - Sum10(t, n) == if k < n then (Symbol(s, k) - Symbol(t, k)) * (10 - k) else 0
  {
    if n > 0 {
      OneChange10(s, t, k, n - 1);
      Distribute(Symbol(s, n - 1), Symbol(t, n - 1), 11 - n);
    }
  }

  lemma {:induction false} OneChange13(s: string, t: string, k: nat, n: nat)
    requires n <= |s| && n <= |t| && k < |s| && k < |t|
    requires forall i :: 0 <= i < n && i != k ==> s[i] == t[i]
    ensures Sum13(s, n) - Sum13(t, n) == if k < n then (Digit(s[k]) - Digit(t[k])) * (if k % 2 == 0 then 1 else 3) else 0
  {
    if n > 0 {
      OneChange13(s, t, k, n - 1);
    }
  }

  /** 11 is prime: a product of two numbers smaller than 11 is no multiple of it. */
  lemma NoFactor11(d: int, w: int)
    requires -10 <= d <= 10 && 1 <= w <= 10 && (d * w) % 11 == 0
    ensures d == 0
  {
    if w == 1 {} else if w == 2 {} else if w == 3 {} else if w == 4 {} else if w == 5 {}
    else if w == 6 {} else if w == 7 {} else if w == 8 {} else if w == 9 {} else {}
  }

  lemma ModDifference11(a: int, b: int)
    requires a % 11 == 0
    ensures b % 11 == 0 <==> (a - b) % 11 == 0
  {
  }

  lemma ModDifference10(a: int, b: int)
    requires a % 10 == 0
    ensures b % 10 == 0 <==> (a - b) % 10 == 0
  {
  }

  /** Two accepted ISBN-10 strings do not differ in exactly one symbol; x and X are the same symbol. */
  lemma SingleErrorCaught10(s: string, t: string, k: nat)
    requires Accepted10(s) && Accepted10(t) && k < 10
    requires forall i :: 0 <= i < 10 && i != k ==> Symbol(s, i) == Symbol(t, i)
    ensures Symbol(s, k) == Symbol(t, k)
  {
    OneChange10(s, t, k, 10);
    ModDifference11(Sum10(s, 10), Sum10(t, 10));
    NoFactor11(Symbol(s, k) - Symbol(t, k), 10 - k);
  }

  /** Two accepted ISBN-13 strings do not differ in exactly one digit. */
  lemma SingleErrorCaught13(s: string, t: string, k: nat)
    requires Accepted13(s) && Accepted13(t) && k < 13
    requires forall i :: 0 <= i < 13 && i != k ==> s[i] == t[i]
    ensures s == t
  {
    OneChange13(s, t, k, 13);
    ModDifference10(Sum13(s, 13), Sum13(t, 13));
    var d := Digit(s[k]) - Digit(t[k]);
    assert -9 <= d <= 9;
    assert k % 2 == 0 ==> d % 10 == 0;
    assert k % 2 == 1 ==> (d * 3) % 10 == 0;
    assert d == 0;
    assert s[k] == t[k];
  }

  // ---------------------------------------------------------------- swapping two symbols

  function Swap(s: string, i: nat, j: nat): (r: string)
    requires i < |s| && j < |s|
    ensures |r| == |s| && r[i] == s[j] && r[j] == s[i]
    ensures forall k :: 0 <= k < |s| && k != i && k != j ==> r[k] == s[k]
  {
    s[i := s[j]][j := s[i]]
  }

  lemma SwapDifference10(s: string, i: nat, j: nat)
    requires WellFormed10(s) && i < j < 10 && WellFormed10(Swap(s, i, j))
    ensures Sum10(s, 10) - Sum10(Swap(s, i, j), 10) == (Symbol(s, i) - Symbol(s, j)) * (j - i)
  {
    var half := s[i := s[j]];
    var t := Swap(s, i, j);
    assert IsDigit(t[i]) && IsDigit(s[j]);
    OneChange10(s, half, i, 10);
    OneChange10(half, t, j, 10);
    var a, b := Symbol(s, i), Symbol(s, j);
    assert Symbol(half, i) == b && Symbol(half, j) == b && Symbol(t, j) == a;
    assert (a - b) * (10 - i) + (b - a) * (10 - j) == (a - b) * (j - i);
  }

  /** Swapping two unequal symbols of an accepted ISBN-10, adjacent or not, is always rejected. */
  lemma SwapCaught10(s: string, i: nat, j: nat)
    requires Accepted10(s) && i < j < 10 && Symbol(s, i) != Symbol(s, j)
    ensures !Accepted10(Swap(s, i, j))
  {
    if WellFormed10(Swap(s, i, j)) {
      SwapDifference10(s, i, j);
      ModDifference11(Sum10(s, 10), Sum10(Swap(s, i, j), 10));
      if Accepted10(Swap(s, i, j)) {
        NoFactor11(Symbol(s, i) - Symbol(s, j), j - i);
      }
    }
  }

  lemma SwapDifference13(s: string, i: nat)
    requires WellFormed13(s) && i + 1 < 13
    ensures Sum13(s, 13) - Sum13(Swap(s, i, i + 1), 13) ==
            (Digit(s[i]) - Digit(s[i + 1])) * (if i % 2 == 0 then -2 else 2)
  {
    var half := s[i := s[i + 1]];
    OneChange13(s, half, i, 13);
    OneChange13(half, Swap(s, i, i + 1), i + 1, 13);
  }

  /** An adjacent swap in an accepted ISBN-13 goes unnoticed exactly when the digits are equal or differ by 5. */
  lemma AdjacentSwap13(s: string, i: nat)
    requires Accepted13(s) && i + 1 < 13
    ensures Accepted13(Swap(s, i, i + 1)) <==>
            var d := Digit(s[i]) - Digit(s[i + 1]); d == 0 || d == 5 || d == -5
  {
    SwapDifference13(s, i);
    ModDifference10(Sum13(s, 13), Sum13(Swap(s, i, i + 1), 13));
    var d := Digit(s[i]) - Digit(s[i + 1]);
    assert -9 <= d <= 9;
    assert (d * 2) % 10 == 0 <==> d == 0 || d == 5 || d == -5;
    assert (d * -2) % 10 == 0 <==> d == 0 || d == 5 || d == -5;
  }

  // ---------------------------------------------------------------- every number has its check symbol

  function CheckSymbol(value: int): char
    requires 0 <= value <= 10
  {
    if value == 10 then 'X' else (value + '0' as int) as char
  }

  lemma CheckValue(value: int)
    requires 0 <= value <= 10
    ensures var c := CheckSymbol(value);
            && (IsDigit(c) <==> value < 10) && (c == 'X' <==> value == 10) && c != 'x'
            && (value < 10 ==> V(c) == value)
  {
  }

  lemma Complement11(w: int)
    ensures (w + (-w) % 11) % 11 == 0
  {
  }

  lemma Complement10(w: int)
    ensures (w + (-w) % 10) % 10 == 0
  {
  }

  lemma Completed10(s: string, w: int)
    requires |s| == 10 && Written9(s) == w && s[9] == CheckSymbol((-w) % 11)
    requires forall i :: 0 <= i < 9 ==> IsDigit(s[i])
    ensures Accepted10(s)
  {
    CheckValue((-w) % 11);
    Complement11(w);
    Sum10Is(s);
  }

  lemma Completed13(s: string, w: int)
    requires |s| == 13 && Written12(s) == w && s[12] == CheckSymbol((-w) % 10)
    requires forall i :: 0 <= i < 12 ==> IsDigit(s[i])
    ensures Accepted13(s)
  {
    CheckValue((-w) % 10);
    Complement10(w);
    Sum13Is(s);
  }

  /** Nine digits are completed by one symbol, and by SingleErrorCaught10 by no other. */
  lemma CheckSymbolExists(digits: string)
    requires |digits| == 9 && forall i :: 0 <= i < 9 ==> IsDigit(digits[i])
    ensures Accepted10(digits + [CheckSymbol((-Written9(digits)) % 11)])
  {
    var w := Written9(digits);
    Completed10(digits + [CheckSymbol((-w) % 11)], w);
  }

  /** Twelve digits are completed by one digit, and by SingleErrorCaught13 by no other. */
  lemma CheckDigitExists(digits: string)
    requires |digits| == 12 && forall i :: 0 <= i < 12 ==> IsDigit(digits[i])
    ensures Accepted13(digits + [CheckSymbol((-Written12(digits)) % 10)])
  {
    var w := Written12(digits);
    Completed13(digits + [CheckSymbol((-w) % 10)], w);
  }
}
