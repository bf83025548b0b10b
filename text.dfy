/**
 * The few Python string and integer built-ins the validators rely on:
 * `str.strip()`, `int(str)`, `str(int)`, `re.sub(r'[^0-9]', '', s)` and
 * the `<` ordering of strings.
 */
module Text {
  import opened Wrappers

  // ---------------------------------------------------------------------
  // Characters and digits
  // ---------------------------------------------------------------------

  /**
   * The characters for which Python's `str.isspace()` holds; `str.strip()`
   * removes them and the regular-expression class `\s` matches them.
   */
  predicate IsSpace(c: char)
  {
    var n := c as int;
    (9 <= n <= 13) || (28 <= n <= 32) || n == 0x85 || n == 0xA0 || n == 0x1680
    || (0x2000 <= n <= 0x200A) || n == 0x2028 || n == 0x2029 || n == 0x202F
    || n == 0x205F || n == 0x3000
  }

  /** An ASCII decimal digit, the class `[0-9]`. */
  predicate IsDigit(c: char)
  {
    '0' <= c <= '9'
  }

  predicate AllDigits(s: string)
  {
    forall i :: 0 <= i < |s| ==> IsDigit(s[i])
  }

  function DigitValue(c: char): (n: nat)
    requires IsDigit(c)
    ensures n < 10
  {
    c as int - '0' as int
  }

  function DigitChar(n: nat): (c: char)
    requires n < 10
    ensures IsDigit(c) && DigitValue(c) == n
  {
    (n + '0' as int) as char
  }

  function Pow10(n: nat): (r: nat)
    ensures r >= 1
  {
    if n == 0 then 1 else 10 * Pow10(n - 1)
  }

  /** The number a run of digits spells, most significant digit first. */
  function DigitsValue(s: string): (n: nat)
    requires AllDigits(s)
    ensures n < Pow10(|s|)
  {
    if s == [] then 0 else DigitsValue(s[..|s| - 1]) * 10 + DigitValue(s[|s| - 1])
  }

  /** `x` written with exactly `n` digits, zero-padded on the left (`%0nd`). */
  function PadDigits(x: nat, n: nat): (s: string)
    ensures |s| == n && AllDigits(s)
  {
    if n == 0 then [] else PadDigits(x / 10, n - 1) + [DigitChar(x % 10)]
  }

  lemma {:induction false} PadDigitsValue(x: nat, n: nat)
    requires x < Pow10(n)
    ensures DigitsValue(PadDigits(x, n)) == x
  {
    if n > 0 {
      var s := PadDigits(x, n);
      assert s[..|s| - 1] == PadDigits(x / 10, n - 1);
      PadDigitsValue(x / 10, n - 1);
    }
  }

  lemma {:induction false} DigitsValuePad(s: string)
    requires AllDigits(s)
    ensures PadDigits(DigitsValue(s), |s|) == s
  {
    if s != [] {
      var init, last := s[..|s| - 1], s[|s| - 1];
      var a, d := DigitsValue(init), DigitValue(last);
      LastDigit(a, d);
      DigitsValuePad(init);
      assert PadDigits(DigitsValue(s), |s|) == PadDigits(a, |s| - 1) + [DigitChar(d)];
      assert s == init + [last];
    }
  }

  lemma LastDigit(a: nat, d: nat)
    requires d < 10
    ensures (a * 10 + d) / 10 == a && (a * 10 + d) % 10 == d
  {
  }

  /** Two padded renderings are equal exactly when the numbers are. */
  lemma PadDigitsInjective(x: nat, y: nat, n: nat)
    requires x < Pow10(n) && y < Pow10(n)
    ensures PadDigits(x, n) == PadDigits(y, n) <==> x == y
  {
    PadDigitsValue(x, n);
    PadDigitsValue(y, n);
  }

  // ---------------------------------------------------------------------
  // str.strip()
  // ---------------------------------------------------------------------

  /** Number of leading whitespace characters. */
  function Lead(s: string): (n: nat)
    ensures n <= |s|
    ensures forall k :: 0 <= k < n ==> IsSpace(s[k])
    ensures n < |s| ==> !IsSpace(s[n])
  {
    if s == [] || !IsSpace(s[0]) then 0 else 1 + Lead(s[1..])
  }

  /** Number of trailing whitespace characters. */
  function Trail(s: string): (n: nat)
    ensures n <= |s|
    ensures forall k :: |s| - n <= k < |s| ==> IsSpace(s[k])
    ensures n < |s| ==> !IsSpace(s[|s| - 1 - n])
  {
    if s == [] || !IsSpace(s[|s| - 1]) then 0 else 1 + Trail(s[..|s| - 1])
  }

  /**
   * The slice `s[lo..hi]` that `str.strip()` keeps: everything before `lo`
   * and from `hi` on is whitespace, and the kept part neither starts nor
   * ends with whitespace.
   */
  function StripBounds(s: string): (b: (nat, nat))
    ensures b.0 <= b.1 <= |s|
    ensures forall k :: 0 <= k < b.0 ==> IsSpace(s[k])
    ensures forall k :: b.1 <= k < |s| ==> IsSpace(s[k])
    ensures b.0 < b.1 ==> !IsSpace(s[b.0]) && !IsSpace(s[b.1 - 1])
  {
    var lo := Lead(s);
    if lo == |s| then (lo, lo) else (lo, |s| - Trail(s))
  }

  function Strip(s: string): (r: string)
    ensures |r| <= |s|
    ensures r == [] || (!IsSpace(r[0]) && !IsSpace(r[|r| - 1]))
    ensures r == [] <==> forall k :: 0 <= k < |s| ==> IsSpace(s[k])
  {
    var b := StripBounds(s);
    s[b.0..b.1]
  }

  /** A string that neither starts nor ends with whitespace is left alone. */
  lemma StripKeeps(s: string)
    requires s == [] || (!IsSpace(s[0]) && !IsSpace(s[|s| - 1]))
    ensures Strip(s) == s
  {
    var b := StripBounds(s);
    if s != [] {
      assert b.0 == 0;
      assert b.1 == |s|;
    }
  }

  lemma StripIdempotent(s: string)
    ensures Strip(Strip(s)) == Strip(s)
  {
    StripKeeps(Strip(s));
  }

  // ---------------------------------------------------------------------
  // str(int) and int(str)
  // ---------------------------------------------------------------------

  /** Decimal digits of a natural number, without leading zeros. */
  function Natural(n: nat): (s: string)
    ensures s != [] && AllDigits(s)
  {
    if n < 10 then [DigitChar(n)] else Natural(n / 10) + [DigitChar(n % 10)]
  }

  /** Python's `str(n)` for an integer. */
  function Decimal(n: int): (s: string)
    ensures s != []
  {
    if n < 0 then "-" + Natural(-n) else Natural(n)
  }

  /** Python's `str(v)` for a request value. */
  function PyStr(v: Value): (s: string)
    ensures v.Str? ==> s == v.s
  {
    match v
    case Null => "None"
    case Int(i) => Decimal(i)
    case Str(t) => t
  }

  /**
   * Python's `int(s)` for a string: surrounding whitespace is ignored, an
   * optional sign is allowed, and at least one digit must follow.
   */
  function ParseInt(s: string): (r: Option<int>)
    ensures r.Some? ==> var t := Strip(s); t != [] && IsDigit(t[|t| - 1])
    ensures r.Some? && r.value < 0 ==> Strip(s)[0] == '-'
  {
    var t := Strip(s);
    if t != [] && (t[0] == '+' || t[0] == '-') then
      var body := t[1..];
      if body != [] && AllDigits(body) then
        Some(if t[0] == '-' then -(DigitsValue(body) as int) else DigitsValue(body))
      else None
    else if t != [] && AllDigits(t) then Some(DigitsValue(t))
    else None
  }

  lemma {:induction false} NaturalValue(n: nat)
    ensures DigitsValue(Natural(n)) == n
  {
    if n >= 10 {
      var s := Natural(n);
      assert s[..|s| - 1] == Natural(n / 10);
      NaturalValue(n / 10);
    }
  }

  /** A run of digits with nothing around it reads as its value. */
  lemma ParseIntDigits(s: string)
    requires s != [] && AllDigits(s)
    ensures ParseInt(s) == Some(DigitsValue(s))
  {
    assert !IsSpace(s[0]) && !IsSpace(s[|s| - 1]);
    StripKeeps(s);
  }

  /** A minus sign before a run of digits reads as the negated value. */
  lemma ParseIntNegative(s: string, t: string)
    requires t != [] && AllDigits(t) && s == "-" + t
    ensures ParseInt(s) == Some(-(DigitsValue(t) as int))
  {
    assert s[0] == '-' && s[|s| - 1] == t[|t| - 1];
    assert !IsSpace(s[0]) && !IsSpace(s[|s| - 1]);
    StripKeeps(s);
    assert s[1..] == t;
  }

  /** `int(str(n)) == n`: the parser reads back every integer's rendering. */
  lemma ParseIntDecimal(n: int)
    ensures ParseInt(Decimal(n)) == Some(n)
  {
    if n < 0 {
      ParseIntNegativeDecimal(n);
    } else {
      ParseIntNaturalDecimal(n);
    }
  }

  lemma ParseIntNaturalDecimal(n: nat)
    ensures ParseInt(Decimal(n)) == Some(n)
  {
    var s := Natural(n);
    assert Decimal(n) == s;
    NaturalValue(n);
    ParseIntDigits(s);
  }

  lemma ParseIntNegativeDecimal(n: int)
    requires n < 0
    ensures ParseInt(Decimal(n)) == Some(n)
  {
    var t := Natural(-n);
    assert Decimal(n) == "-" + t;
    NaturalValue(-n);
    ParseIntNegative("-" + t, t);
  }

  // ---------------------------------------------------------------------
  // re.sub(r'[^0-9]', '', s)
  // ---------------------------------------------------------------------

  /** `s` with every character other than an ASCII digit removed. */
  function OnlyDigits(s: string): (r: string)
    ensures AllDigits(r) && |r| <= |s|
    ensures forall c :: c in r <==> c in s && IsDigit(c)
  {
    if s == [] then []
    else if IsDigit(s[0]) then [s[0]] + OnlyDigits(s[1..])
    else OnlyDigits(s[1..])
  }

  lemma {:induction false} OnlyDigitsAppend(a: string, b: string)
    ensures OnlyDigits(a + b) == OnlyDigits(a) + OnlyDigits(b)
  {
    if a != [] {
      assert (a + b)[0] == a[0] && (a + b)[1..] == a[1..] + b;
      OnlyDigitsAppend(a[1..], b);
    } else {
      assert a + b == b;
    }
  }

  lemma {:induction false} OnlyDigitsOfDigits(s: string)
    requires AllDigits(s)
    ensures OnlyDigits(s) == s
  {
    if s != [] {
      OnlyDigitsOfDigits(s[1..]);
    }
  }

  // ---------------------------------------------------------------------
  // String ordering
  // ---------------------------------------------------------------------

  /** Python's `a < b` on strings: lexicographic by code point. */
  predicate LexLess(a: string, b: string)
  {
    if a == [] then b != []
    else if b == [] then false
    else if a[0] != b[0] then a[0] < b[0]
    else LexLess(a[1..], b[1..])
  }

  /** Exactly one of `a < b`, `a == b`, `b < a` holds. */
  lemma {:induction false} LexTrichotomy(a: string, b: string)
    ensures LexLess(a, b) || a == b || LexLess(b, a)
    ensures !(LexLess(a, b) && LexLess(b, a))
    ensures !LexLess(a, a)
  {
    if a != [] && b != [] {
      LexTrichotomy(a[1..], b[1..]);
      if a[0] == b[0] && a[1..] == b[1..] {
        assert a == [a[0]] + a[1..] && b == [b[0]] + b[1..];
      }
      LexTrichotomy(a[1..], a[1..]);
    } else if a != [] {
      LexTrichotomy(a[1..], a[1..]);
    }
  }

  /** Comparing two concatenations whose first parts have equal length. */
  lemma {:induction false} LexLessAppend(a1: string, b1: string, a2: string, b2: string)
    requires |a1| == |a2|
    ensures LexLess(a1 + b1, a2 + b2) <==> LexLess(a1, a2) || (a1 == a2 && LexLess(b1, b2))
  {
    if a1 != [] {
      assert (a1 + b1)[1..] == a1[1..] + b1;
      assert (a2 + b2)[1..] == a2[1..] + b2;
      LexLessAppend(a1[1..], b1, a2[1..], b2);
      if a1[0] == a2[0] {
        assert a1[1..] == a2[1..] <==> a1 == a2 by {
          assert a1 == [a1[0]] + a1[1..] && a2 == [a2[0]] + a2[1..];
        }
      }
    } else {
      assert a1 + b1 == b1 && a2 + b2 == b2;
    }
  }

  /** Zero-padded numbers of one width compare as strings as they do as numbers. */
  lemma {:induction false} PadDigitsOrder(x: nat, y: nat, n: nat)
    requires x < Pow10(n) && y < Pow10(n)
    ensures LexLess(PadDigits(x, n), PadDigits(y, n)) <==> x < y
  {
    if n == 0 {
      assert x == 0 && y == 0;
    } else {
      var px, py := PadDigits(x / 10, n - 1), PadDigits(y / 10, n - 1);
      var cx, cy := DigitChar(x % 10), DigitChar(y % 10);
      assert x / 10 < Pow10(n - 1) && y / 10 < Pow10(n - 1);
      PadDigitsOrder(x / 10, y / 10, n - 1);
      PadDigitsInjective(x / 10, y / 10, n - 1);
      LexLessAppend(px, [cx], py, [cy]);
      assert LexLess([cx], [cy]) <==> x % 10 < y % 10 by {
        assert [cx][1..] == [] && [cy][1..] == [];
      }
      assert x == 10 * (x / 10) + x % 10 && y == 10 * (y / 10) + y % 10;
    }
  }
}
