/** Board coordinates (src/model/Position.java): an immutable (row, col) pair. */
module Positions {

  /** Both fields are fixed at construction; a datatype value cannot be changed afterwards. */
  datatype Position = Position(row: int, col: int)

  /** Value equality as `equals` defines it: same row and same column. */
  function Equals(a: Position, b: Position): (r: bool)
    ensures r <==> a == b
  {
    a.row == b.row && a.col == b.col
  }

  lemma EqualsReflexiveSymmetric(a: Position, b: Position)
    ensures Equals(a, a)
    ensures Equals(a, b) == Equals(b, a)
  {
  }

  /** Reduction of an unbounded integer to Java's 32-bit two's-complement `int`. */
  function JavaInt(x: int): (r: int)
    ensures -0x8000_0000 <= r < 0x8000_0000
    ensures -0x8000_0000 <= x < 0x8000_0000 ==> r == x
    ensures (r - x) % 0x1_0000_0000 == 0
  {
    (x + 0x8000_0000) % 0x1_0000_0000 - 0x8000_0000
  }

  /** `hashCode`: 31 * row + col in 32-bit arithmetic. */
  function HashCode(p: Position): (r: int)
    ensures -0x8000_0000 <= r < 0x8000_0000
    ensures -0x8000_0000 <= 31 * p.row + p.col < 0x8000_0000 ==> r == 31 * p.row + p.col
    ensures (r - (31 * p.row + p.col)) % 0x1_0000_0000 == 0
  {
    JavaInt(31 * p.row + p.col)
  }

  /** Equal positions have equal hash codes, as the `equals`/`hashCode` contract requires. */
  lemma HashCodeRespectsEquals(a: Position, b: Position)
    requires Equals(a, b)
    ensures HashCode(a) == HashCode(b)
  {
  }

  /** On a board of side at most 31 the hash code tells the cells apart. */
  lemma {:induction false} HashCodeInjectiveOnBoards(a: Position, b: Position, m: int)
    requires m <= 31
    requires 0 <= a.row < m && 0 <= b.row < m
    requires 0 <= a.col < m && 0 <= b.col < m
    ensures HashCode(a) == HashCode(b) <==> a == b
  {
    if HashCode(a) == HashCode(b) {
      assert 31 * a.row + a.col == 31 * b.row + b.col;
    }
  }

  // ---------------------------------------------------------------------------
  // Decimal text of integers, as Java's string concatenation writes an int.

  function DigitChar(d: nat): (c: char)
    requires d < 10
    ensures '0' <= c <= '9'
  {
    "0123456789"[d]
  }

  predicate IsDigit(c: char) {
    '0' <= c <= '9'
  }

  function DigitValue(c: char): (d: nat)
    requires IsDigit(c)
    ensures d < 10
  {
    (c as int) - ('0' as int)
  }

  /** The decimal digits of a natural number, without leading zeros. */
  function Digits(n: nat): (r: string)
    ensures |r| >= 1
    ensures forall i :: 0 <= i < |r| ==> IsDigit(r[i])
    ensures |r| > 1 ==> r[0] != '0'
    decreases n
  {
    if n < 10 then [DigitChar(n)] else Digits(n / 10) + [DigitChar(n % 10)]
  }

  /** The number a string of decimal digits denotes. */
  function DigitsValue(s: string): nat
    requires forall i :: 0 <= i < |s| ==> IsDigit(s[i])
  {
    if s == [] then 0 else 10 * DigitsValue(s[..|s| - 1]) + DigitValue(s[|s| - 1])
  }

  lemma DigitCharValue(d: nat)
    requires d < 10
    ensures DigitValue(DigitChar(d)) == d
  {
  }

  /** Reading back the digits of `n` gives `n`. */
  lemma {:induction false} DigitsRoundTrip(n: nat)
    ensures DigitsValue(Digits(n)) == n
    decreases n
  {
    DigitCharValue(n % 10);
    if n >= 10 {
      var ds := Digits(n / 10);
      DigitsRoundTrip(n / 10);
      assert (ds + [DigitChar(n % 10)])[..|ds|] == ds;
    }
  }

  /** Java's decimal text of an int: a minus sign for negatives, then the digits. */
  function IntToString(n: int): (r: string)
    ensures |r| >= 1
    ensures forall i :: 0 <= i < |r| ==> r[i] == '-' || IsDigit(r[i])
    ensures n < 0 <==> r[0] == '-'
  {
    if n < 0 then "-" + Digits(-n) else Digits(n)
  }

  function ParseInt(s: string): int
    requires forall i :: 0 <= i < |s| ==> IsDigit(s[i]) || (i == 0 && s[i] == '-')
  {
    if |s| > 0 && s[0] == '-' then -(DigitsValue(s[1..]) as int) else DigitsValue(s)
  }

  /** The decimal text of an int determines the int. */
  lemma IntToStringRoundTrip(n: int)
    ensures ParseInt(IntToString(n)) == n
  {
    if n < 0 {
      DigitsRoundTrip(-n);
      assert IntToString(n)[1..] == Digits(-n);
    } else {
      DigitsRoundTrip(n);
    }
  }

  /** `toString`: "(" + row + ", " + col + ")". */
  function ToString(p: Position): (r: string)
    ensures |r| == 4 + |IntToString(p.row)| + |IntToString(p.col)|
    ensures r[0] == '(' && r[|r| - 1] == ')'
    ensures r[1..1 + |IntToString(p.row)|] == IntToString(p.row)
    ensures r[1 + |IntToString(p.row)|..3 + |IntToString(p.row)|] == ", "
    ensures r[3 + |IntToString(p.row)|..|r| - 1] == IntToString(p.col)
  {
    "(" + IntToString(p.row) + ", " + IntToString(p.col) + ")"
  }

  /** The text after "(" and the first number is the ", " separator, never a character of a number. */
  lemma SeparatorPosition(a: string, b: string, c: string, d: string)
    requires forall i :: 0 <= i < |c| ==> c[i] == '-' || IsDigit(c[i])
    ensures |a| < |c| ==> ("(" + a + ", " + b + ")")[1 + |a|] != ("(" + c + ", " + d + ")")[1 + |a|]
  {
  }

  /** Different positions print differently: the text form can be parsed back. */
  lemma ToStringInjective(p: Position, q: Position)
    requires ToString(p) == ToString(q)
    ensures p == q
  {
    var a, b := IntToString(p.row), IntToString(p.col);
    var c, d := IntToString(q.row), IntToString(q.col);
    var s := ToString(p);
    assert s == "(" + a + ", " + b + ")";
    assert s == "(" + c + ", " + d + ")";
    SeparatorPosition(a, b, c, d);
    SeparatorPosition(c, d, a, b);
    assert a == s[1..1 + |a|];
    assert c == s[1..1 + |c|];
    assert b == s[3 + |a|..|s| - 1];
    assert d == s[3 + |c|..|s| - 1];
    IntToStringRoundTrip(p.row);
    IntToStringRoundTrip(q.row);
    IntToStringRoundTrip(p.col);
    IntToStringRoundTrip(q.col);
  }
}
