/** Character-level helpers: fixed-width decimal digits, JavaScript's string `<=`,
    `split(c)[0]`, and `String(n)` for integers. */
module Text {

  predicate IsDigit(c: char) { '0' <= c <= '9' }

  predicate AllDigits(s: string) { forall i :: 0 <= i < |s| ==> IsDigit(s[i]) }

  function DigitChar(d: int): (c: char)
    requires 0 <= d <= 9
    ensures IsDigit(c)
  {
    ('0' as int + d) as char
  }

  function Pow10(w: nat): nat
    ensures Pow10(w) >= 1
  {
    if w == 0 then 1 else 10 * Pow10(w - 1)
  }

  /** The last `width` decimal digits of `n`, zero-padded on the left. */
  function PadDigits(n: nat, width: nat): (s: string)
    ensures |s| == width && AllDigits(s)
  {
    if width == 0 then "" else PadDigits(n / 10, width - 1) + [DigitChar(n % 10)]
  }

  /** The number a string of decimal digits denotes (JavaScript's `Number` on such a string). */
  function DigitsValue(s: string): nat
    requires AllDigits(s)
  {
    if s == [] then 0 else DigitsValue(s[..|s| - 1]) * 10 + (s[|s| - 1] as int - '0' as int)
  }

  lemma {:induction false} DigitsValueOfPad(n: nat, w: nat)
    requires n < Pow10(w)
    ensures DigitsValue(PadDigits(n, w)) == n
  {
    if w > 0 {
      var s := PadDigits(n / 10, w - 1);
      DigitsValueOfPad(n / 10, w - 1);
      assert (s + [DigitChar(n % 10)])[..|s|] == s;
    }
  }

  lemma {:induction false} PadOfDigitsValue(s: string)
    requires AllDigits(s)
    ensures DigitsValue(s) < Pow10(|s|)
    ensures PadDigits(DigitsValue(s), |s|) == s
  {
    if s != [] {
      var init := s[..|s| - 1];
      PadOfDigitsValue(init);
      var v := DigitsValue(s);
      var d := s[|s| - 1] as int - '0' as int;
      assert v == DigitsValue(init) * 10 + d;
      assert v / 10 == DigitsValue(init) && v % 10 == d;
      assert DigitChar(d) == s[|s| - 1];
      assert s == init + [s[|s| - 1]];
    }
  }

  /** JavaScript's `a <= b` on strings: lexicographic by character, a proper prefix first.
      JavaScript compares UTF-16 code units and Dafny's `char` compares scalar values. The
      two orders agree except between a character above U+FFFF and one in U+E000..U+FFFF,
      and no well-formed date string holds either kind. */
  function LexLe(a: string, b: string): bool
  {
    if a == [] then true
    else if b == [] then false
    else if a[0] != b[0] then a[0] < b[0]
    else LexLe(a[1..], b[1..])
  }

  lemma {:induction false} LexLeRefl(a: string)
    ensures LexLe(a, a)
  {
    if a != [] { LexLeRefl(a[1..]); }
  }

  /** On strings of one length `<=` is total and antisymmetric. */
  lemma {:induction false} LexLeTotal(a: string, b: string)
    requires |a| == |b|
    ensures LexLe(a, b) || LexLe(b, a)
    ensures LexLe(a, b) && LexLe(b, a) ==> a == b
  {
    if a != [] && a[0] == b[0] {
      LexLeTotal(a[1..], b[1..]);
      assert a == [a[0]] + a[1..] && b == [b[0]] + b[1..];
    }
  }

  /** Two different strings of one length decide the comparison of anything they start. */
  lemma {:induction false} LexLePrefix(p: string, q: string, x: string, y: string)
    requires |p| == |q| && p != q && LexLe(p, q)
    ensures LexLe(p + x, q + y)
  {
    assert (p + x)[0] == p[0] && (q + y)[0] == q[0];
    if p[0] == q[0] {
      assert p[1..] != q[1..] by { assert p == [p[0]] + p[1..] && q == [q[0]] + q[1..]; }
      LexLePrefix(p[1..], q[1..], x, y);
      assert (p + x)[1..] == p[1..] + x && (q + y)[1..] == q[1..] + y;
    }
  }

  /** A common start leaves the comparison to what follows it. */
  lemma {:induction false} LexLeCommonPrefix(p: string, x: string, y: string)
    ensures LexLe(p + x, p + y) == LexLe(x, y)
  {
    if p != [] {
      LexLeCommonPrefix(p[1..], x, y);
      assert (p + x)[1..] == p[1..] + x && (p + y)[1..] == p[1..] + y;
    } else {
      assert p + x == x && p + y == y;
    }
  }

  /** Zero-padded numbers of one width compare as the numbers do. */
  lemma {:induction false} PadDigitsOrder(a: nat, b: nat, w: nat)
    requires a < b < Pow10(w)
    ensures PadDigits(a, w) != PadDigits(b, w) && LexLe(PadDigits(a, w), PadDigits(b, w))
  {
    DigitsValueOfPad(a, w);
    DigitsValueOfPad(b, w);
    var pa, pb := PadDigits(a / 10, w - 1), PadDigits(b / 10, w - 1);
    assert PadDigits(a, w) == pa + [DigitChar(a % 10)];
    assert PadDigits(b, w) == pb + [DigitChar(b % 10)];
    if a / 10 < b / 10 {
      PadDigitsOrder(a / 10, b / 10, w - 1);
      LexLePrefix(pa, pb, [DigitChar(a % 10)], [DigitChar(b % 10)]);
    } else {
      assert pa == pb;
      LexLeCommonPrefix(pa, [DigitChar(a % 10)], [DigitChar(b % 10)]);
    }
  }

  /** `s.split(c)[0]`: everything before the first `c`, or all of `s`. */
  function BeforeFirst(s: string, c: char): string
  {
    if s == [] || s[0] == c then [] else [s[0]] + BeforeFirst(s[1..], c)
  }

  lemma {:induction false} BeforeFirstOfJoin(p: string, c: char, q: string)
    requires c !in p
    ensures BeforeFirst(p + [c] + q, c) == p
  {
    if p != [] {
      BeforeFirstOfJoin(p[1..], c, q);
      assert (p + [c] + q)[1..] == p[1..] + [c] + q;
    }
  }

  /** `String(n)` for an integer n. */
  function DecimalString(n: int): string
  {
    if n < 0 then "-" + NaturalString(-n) else NaturalString(n)
  }

  function NaturalString(n: nat): string
  {
    if n < 10 then [DigitChar(n)] else NaturalString(n / 10) + [DigitChar(n % 10)]
  }
}
