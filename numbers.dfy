/** Java `int` values and their decimal text: `Integer.toString` (what string
    concatenation prints) and `Integer.parseInt`. */
module Numbers {
  import opened Wrappers

  /** A Java `int`: 32-bit two's complement. */
  newtype Int32 = x: int | -0x8000_0000 <= x < 0x8000_0000

  predicate IsDigit(c: char) {
    '0' <= c <= '9'
  }

  predicate AllDigits(s: string) {
    forall i :: 0 <= i < |s| ==> IsDigit(s[i])
  }

  function DigitValue(c: char): (d: nat)
    requires IsDigit(c)
    ensures d < 10
  {
    c as int - '0' as int
  }

  function DigitChar(d: nat): (c: char)
    requires d < 10
    ensures IsDigit(c) && DigitValue(c) == d
  {
    ('0' as int + d) as char
  }

  function Pow10(k: nat): (p: nat)
    ensures p >= 1
  {
    if k == 0 then 1 else 10 * Pow10(k - 1)
  }

  /** The shortest decimal digits of `n` (no leading zeros). */
  function Digits(n: nat): (r: string)
    ensures 1 <= |r| && AllDigits(r)
    ensures |r| > 1 ==> r[0] != '0'
  {
    if n < 10 then [DigitChar(n)] else Digits(n / 10) + [DigitChar(n % 10)]
  }

  /** The number a string of decimal digits denotes, read left to right as
      `parseInt` accumulates it. */
  function DigitsValue(s: string): nat
    requires AllDigits(s)
  {
    if s == [] then 0 else DigitsValue(s[..|s| - 1]) * 10 + DigitValue(s[|s| - 1])
  }

  /** Digits are the inverse of their value. */
  lemma {:induction false} DigitsValueOfDigits(n: nat)
    ensures DigitsValue(Digits(n)) == n
  {
    if n >= 10 {
      var r := Digits(n);
      assert r[..|r| - 1] == Digits(n / 10);
      DigitsValueOfDigits(n / 10);
    }
  }

  /** A number below 10^w needs at most w digits. */
  lemma {:induction false} DigitsLength(n: nat, w: nat)
    requires 1 <= w && n < Pow10(w)
    ensures |Digits(n)| <= w
  {
    if n >= 10 {
      assert w >= 2;
      assert n / 10 < Pow10(w - 1);
      DigitsLength(n / 10, w - 1);
    }
  }

  function Zeros(k: nat): (r: string)
    ensures |r| == k && AllDigits(r)
    ensures forall i :: 0 <= i < k ==> r[i] == '0'
  {
    if k == 0 then [] else Zeros(k - 1) + ['0']
  }

  /** Left-pads digits with '0' up to `width` characters, never cutting any:
      what the `yyyy`, `MM` and `dd` fields of a date pattern print. */
  function ZeroPad(ds: string, width: nat): (r: string)
    requires AllDigits(ds)
    ensures AllDigits(r)
    ensures |r| == if |ds| >= width then |ds| else width
    ensures r[|r| - |ds|..] == ds
  {
    if |ds| >= width then ds else Zeros(width - |ds|) + ds
  }

  /** Leading zeros do not change the value. */
  lemma {:induction false} ZeroPadValue(ds: string, width: nat)
    requires AllDigits(ds)
    ensures DigitsValue(ZeroPad(ds, width)) == DigitsValue(ds)
  {
    if |ds| < width {
      ZerosPrefixValue(width - |ds|, ds);
    }
  }

  lemma {:induction false} ZerosPrefixValue(k: nat, ds: string)
    requires AllDigits(ds)
    ensures DigitsValue(Zeros(k) + ds) == DigitsValue(ds)
    decreases |ds|, k
  {
    if ds == [] {
      assert Zeros(k) + ds == Zeros(k);
      if k > 0 {
        assert Zeros(k)[..k - 1] == Zeros(k - 1);
        ZerosPrefixValue(k - 1, ds);
        assert Zeros(k - 1) + ds == Zeros(k - 1);
      }
    } else {
      var s := Zeros(k) + ds;
      assert s[..|s| - 1] == Zeros(k) + ds[..|ds| - 1];
      ZerosPrefixValue(k, ds[..|ds| - 1]);
    }
  }

  /** A digit string of value zero is all zeros. */
  lemma {:induction false} ValueZeroIsZeros(t: string)
    requires AllDigits(t) && DigitsValue(t) == 0
    ensures t == Zeros(|t|)
  {
    if t != [] {
      ValueZeroIsZeros(t[..|t| - 1]);
      assert t == t[..|t| - 1] + [t[|t| - 1]];
    }
  }

  /** Every digit string of length `|t|` is the zero-padded form of its value:
      fixed-width numeric fields are canonical. */
  lemma {:induction false} ZeroPadDigitsValue(t: string)
    requires AllDigits(t) && t != []
    ensures ZeroPad(Digits(DigitsValue(t)), |t|) == t
  {
    var init, c := t[..|t| - 1], t[|t| - 1];
    assert t == init + [c];
    var w, dc := DigitsValue(init), DigitValue(c);
    var v := DigitsValue(t);
    assert v == w * 10 + dc;
    assert DigitChar(dc) == c;
    if w == 0 {
      ValueZeroIsZeros(init);
      assert Digits(v) == [c];
    } else {
      assert v / 10 == w && v % 10 == dc;
      assert Digits(v) == Digits(w) + [c];
      var dw := Digits(w);
      assert ZeroPad(dw, |init|) == init by {
        ZeroPadDigitsValue(init);
      }
      if |dw| < |init| {
        assert Zeros(|init| - |dw|) + dw == init;
        assert ZeroPad(Digits(v), |t|) == Zeros(|init| - |dw|) + dw + [c];
      } else {
        assert dw == init;
      }
    }
  }

  /** A digit string of length k denotes a number below 10^k. */
  lemma {:induction false} DigitsValueBound(s: string)
    requires AllDigits(s)
    ensures DigitsValue(s) < Pow10(|s|)
  {
    if s != [] {
      DigitsValueBound(s[..|s| - 1]);
    }
  }

  /** Comparing `a * m + x` with `b * m + y`, for remainders below `m`, is
      comparing `(a, x)` with `(b, y)` lexicographically: the fact that lets
      a single integer key order a pair of fields. */
  lemma LexicographicKey(a: int, x: int, b: int, y: int, m: int)
    requires 0 <= x < m && 0 <= y < m
    ensures a * m + x <= b * m + y <==> a < b || (a == b && x <= y)
  {
    if a < b {
      MulMonotone(a + 1, b, m);
      assert (a + 1) * m == a * m + m;
    } else if b < a {
      MulMonotone(b + 1, a, m);
      assert (b + 1) * m == b * m + m;
    }
  }

  lemma MulMonotone(p: int, q: int, m: int)
    requires p <= q && 0 <= m
    ensures p * m <= q * m
  {
    var k := q - p;
    assert q * m == p * m + k * m;
  }

  /** Padding the shortest digits of `n` keeps the value `n`. */
  lemma PaddedValue(n: nat, width: nat)
    ensures DigitsValue(ZeroPad(Digits(n), width)) == n
  {
    ZeroPadValue(Digits(n), width);
    DigitsValueOfDigits(n);
  }

  const MinusSign: char := '-'

  /** `Integer.toString(n)`: an optional minus sign and the shortest digits. */
  function FormatInt(n: int): (r: string)
    ensures r != []
    ensures forall i :: 0 <= i < |r| ==> IsDigit(r[i]) || r[i] == MinusSign
  {
    if n < 0 then [MinusSign] + Digits(-n) else Digits(n)
  }

  /** `Integer.parseInt(s)`: an optional '+' or '-' and at least one ASCII
      digit, nothing else (no white space), and a value that fits an `int`;
      `None` stands for the NumberFormatException. */
  function ParseInt(s: string): (r: Option<Int32>)
    ensures r.Some? ==> s != [] && |s| > (if s[0] == '-' || s[0] == '+' then 1 else 0)
    ensures r.Some? ==> IsDigit(s[0]) || s[0] == '-' || s[0] == '+'
    ensures r.Some? ==> forall i :: 0 < i < |s| ==> IsDigit(s[i])
    ensures r.Some? && r.value < 0 ==> s[0] == '-'
  {
    if s == [] then None
    else
      var signed := s[0] == '-' || s[0] == '+';
      var ds := if signed then s[1..] else s;
      if ds == [] || !AllDigits(ds) then None
      else
        var m: int := DigitsValue(ds);
        var v := if s[0] == '-' then -m else m;
        if -0x8000_0000 <= v < 0x8000_0000 then Some(v as Int32) else None
  }

  /** Printing an `int` and parsing it back gives the same `int`. */
  lemma IntRoundTrip(n: Int32)
    ensures ParseInt(FormatInt(n as int)) == Some(n)
  {
    if n < 0 {
      var ds := Digits(-(n as int));
      assert DigitsValue(ds) == -(n as int) by { DigitsValueOfDigits(-(n as int)); }
      ParseNegative(ds);
    } else {
      var ds := Digits(n as int);
      assert DigitsValue(ds) == n as int by { DigitsValueOfDigits(n as int); }
      ParseUnsigned(ds);
    }
  }

  lemma ParseUnsigned(ds: string)
    requires ds != [] && AllDigits(ds) && DigitsValue(ds) < 0x8000_0000
    ensures ParseInt(ds) == Some(DigitsValue(ds) as Int32)
  {
  }

  lemma ParseNegative(ds: string)
    requires ds != [] && AllDigits(ds) && DigitsValue(ds) <= 0x8000_0000
    ensures ParseInt([MinusSign] + ds) == Some((-(DigitsValue(ds) as int)) as Int32)
  {
    assert ([MinusSign] + ds)[1..] == ds;
  }

  /** A string that does not start with a sign or a digit is refused. */
  lemma ParseIntRejectsLetters(s: string)
    requires s != [] && !IsDigit(s[0]) && s[0] != '-' && s[0] != '+'
    ensures ParseInt(s) == None
  {
  }

  /** The converse of IntRoundTrip fails: `parseInt` also accepts a '+'
      sign and leading zeros, which `toString` never writes. */
  lemma ParseIntAcceptsNonCanonical()
    ensures ParseInt("+5") == Some(5) && FormatInt(5) == "5"
    ensures ParseInt("007") == Some(7) && FormatInt(7) == "7"
  {
    assert "+5"[1..] == "5";
    assert "007"[..2][..1] == "0";
    assert DigitsValue("007"[..2]) == 0;
  }

  /** One past the largest `int` is refused rather than wrapped around. */
  lemma ParseIntRejectsOverflow()
    ensures ParseInt("2147483648") == None
    ensures ParseInt("-2147483648") == Some(-0x8000_0000 as Int32)
  {
    var t := "2147483648";
    assert AllDigits(t);
    assert DigitsValue(t[..1]) == 2;
    assert t[..2][..1] == t[..1];
    assert DigitsValue(t[..2]) == 21;
    assert t[..3][..2] == t[..2];
    assert DigitsValue(t[..3]) == 214;
    assert t[..4][..3] == t[..3];
    assert DigitsValue(t[..4]) == 2147;
    assert t[..5][..4] == t[..4];
    assert DigitsValue(t[..5]) == 21474;
    assert t[..6][..5] == t[..5];
    assert DigitsValue(t[..6]) == 214748;
    assert t[..7][..6] == t[..6];
    assert DigitsValue(t[..7]) == 2147483;
    assert t[..8][..7] == t[..7];
    assert DigitsValue(t[..8]) == 21474836;
    assert t[..9][..8] == t[..8];
    assert DigitsValue(t[..9]) == 214748364;
    assert t[..9] == t[..|t| - 1];
    assert DigitsValue(t) == 2147483648;
    assert "-2147483648"[1..] == t;
  }
}
