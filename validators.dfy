/**
 * The field rules the `Chale` and `Inquilino` setters enforce, as pure
 * functions from the raw request value to the value the setter stores or
 * the reason it raises.
 */
module Validators {
  import opened Wrappers
  import opened Text

  /** Why a validating setter raised. */
  datatype Reason =
    | NotAnInteger   // `int(valor)` raised
    | NotPositive    // the parsed integer is <= 0
    | NotAString     // the `isinstance(value, str)` test failed
    | TooShort       // fewer than 3 characters after `strip()`
    | Blank          // e-mail empty after `strip()`
    | BadFormat      // e-mail, phone or CPF pattern not met
    | TypeMismatch   // `re.sub` applied to a non-string raised `TypeError`

  // ---------------------------------------------------------------------
  // Positive integers: idChale, capacidade, idInquilino
  // ---------------------------------------------------------------------

  /** `int(valor)` for a request value. */
  function IntOf(v: Value): Option<int>
  {
    match v
    case Null => None
    case Int(i) => Some(i)
    case Str(s) => ParseInt(s)
  }

  /** The id and capacity setters: `int(valor)` must succeed and be > 0. */
  function PositiveInt(v: Value): (r: Result<int, Reason>)
    ensures r.Success? ==> r.value >= 1
  {
    match IntOf(v)
    case None => Failure(NotAnInteger)
    case Some(n) => if n <= 0 then Failure(NotPositive) else Success(n)
  }

  /**
   * A positive integer is accepted both as a number and as its decimal text,
   * and stored as that number; zero and negatives are refused as not positive.
   */
  lemma PositiveIntOfDecimal(n: int)
    ensures PositiveInt(Int(n)) == PositiveInt(Str(Decimal(n)))
    ensures PositiveInt(Int(n)) == if n > 0 then Success(n) else Failure(NotPositive)
  {
    ParseIntDecimal(n);
  }

  // ---------------------------------------------------------------------
  // Names: nome, nomeInquilino
  // ---------------------------------------------------------------------

  /** The name setters: a string of at least 3 characters once stripped. */
  function Name(v: Value): (r: Result<string, Reason>)
    ensures r.Success? ==> |r.value| >= 3
    ensures r.Success? ==> !IsSpace(r.value[0]) && !IsSpace(r.value[|r.value| - 1])
    ensures r.Success? <==> v.Str? && |Strip(v.s)| >= 3
    ensures r.Success? ==> r.value == Strip(v.s)
    ensures !v.Str? ==> r == Failure(NotAString)
  {
    if !v.Str? then Failure(NotAString)
    else
      var t := Strip(v.s);
      if |t| < 3 then Failure(TooShort) else Success(t)
  }

  /** Setting a stored name again stores the very same name. */
  lemma NameIdempotent(v: Value)
    requires Name(v).Success?
    ensures Name(Str(Name(v).value)) == Name(v)
  {
    StripIdempotent(v.s);
  }

  // ---------------------------------------------------------------------
  // E-mail
  // ---------------------------------------------------------------------

  /** A non-empty run of the class `[^\s@]`. */
  predicate Atom(t: string)
  {
    t != [] && forall k :: 0 <= k < |t| ==> !IsSpace(t[k]) && t[k] != '@'
  }

  /**
   * `re.match(r"^[^\s@]+@[^\s@]+\.[^\s@]+$", s)`: the text splits into an
   * atom, an `@`, an atom, a `.` and an atom.
   */
  ghost predicate MatchesEmailPattern(s: string)
  {
    exists i, k :: 0 <= i < k < |s| && s[i] == '@' && s[k] == '.'
      && Atom(s[..i]) && Atom(s[i + 1..k]) && Atom(s[k + 1..])
  }

  /** Position of the first `c` in `s`, or `|s|` when there is none. */
  function IndexOf(s: string, c: char): (i: nat)
    ensures i <= |s|
    ensures i < |s| ==> s[i] == c
    ensures forall k :: 0 <= k < i ==> s[k] != c
  {
    if s == [] then 0 else if s[0] == c then 0 else 1 + IndexOf(s[1..], c)
  }

  /**
   * The e-mail shape, decided in one pass: a non-empty local part before
   * the first `@`, and after it a domain with neither whitespace nor `@`
   * holding a `.` that is neither its first nor its last character.
   */
  predicate EmailShape(s: string)
  {
    var i := IndexOf(s, '@');
    i < |s| && Atom(s[..i])
    && var d := s[i + 1..];
       |d| >= 3 && (forall k :: 0 <= k < |d| ==> !IsSpace(d[k]) && d[k] != '@')
       && '.' in d[1..|d| - 1]
  }

  /** A text the one-pass check accepts matches the regular expression. */
  lemma EmailShapeMatches(s: string)
    requires EmailShape(s)
    ensures MatchesEmailPattern(s)
  {
    var i := IndexOf(s, '@');
    var d := s[i + 1..];
    var j :| 0 <= j < |d| - 2 && d[1..|d| - 1][j] == '.';
    var k := i + 2 + j;
    assert s[k] == d[j + 1] == '.';
    assert s[i + 1..k] == d[..j + 1];
    assert s[k + 1..] == d[j + 2..];
    assert Atom(s[i + 1..k]);
    assert Atom(s[k + 1..]);
  }

  /** A text the regular expression matches passes the one-pass check. */
  lemma PatternMatchesEmailShape(s: string, i: nat, k: nat)
    requires 0 <= i < k < |s| && s[i] == '@' && s[k] == '.'
    requires Atom(s[..i]) && Atom(s[i + 1..k]) && Atom(s[k + 1..])
    ensures EmailShape(s)
  {
    assert forall m :: 0 <= m < i ==> s[..i][m] == s[m];
    assert IndexOf(s, '@') == i;
    var d := s[i + 1..];
    assert d == s[i + 1..k] + [s[k]] + s[k + 1..];
    assert forall m :: 0 <= m < |d| ==> !IsSpace(d[m]) && d[m] != '@';
    assert d[1..|d| - 1][k - i - 2] == '.';
  }

  /** The one-pass check accepts exactly the texts the regular expression matches. */
  lemma EmailShapeMatchesPattern(s: string)
    ensures EmailShape(s) <==> MatchesEmailPattern(s)
  {
    if EmailShape(s) {
      EmailShapeMatches(s);
    }
    if MatchesEmailPattern(s) {
      var i, k :| 0 <= i < k < |s| && s[i] == '@' && s[k] == '.'
        && Atom(s[..i]) && Atom(s[i + 1..k]) && Atom(s[k + 1..]);
      PatternMatchesEmailShape(s, i, k);
    }
  }

  /** The e-mail setter: a non-blank string matching the pattern once stripped. */
  function Email(v: Value): (r: Result<string, Reason>)
    ensures r.Success? ==> v.Str? && r.value == Strip(v.s)
    ensures r.Success? ==> r.value != [] && !IsSpace(r.value[0]) && !IsSpace(r.value[|r.value| - 1])
    ensures r.Success? ==> '@' in r.value
  {
    if !v.Str? then Failure(NotAString)
    else
      var t := Strip(v.s);
      if t == [] then Failure(Blank)
      else if !EmailShape(t) then Failure(BadFormat)
      else Success(t)
  }

  /** What the e-mail setter accepts and stores, stated by the pattern. */
  lemma EmailAccepts(v: Value)
    ensures Email(v).Success? <==> v.Str? && MatchesEmailPattern(Strip(v.s))
    ensures Email(v).Success? ==> Email(v).value == Strip(v.s)
  {
    if v.Str? {
      EmailShapeMatchesPattern(Strip(v.s));
    }
  }

  // ---------------------------------------------------------------------
  // Phone: validar_telefone
  // ---------------------------------------------------------------------

  /**
   * `validar_telefone`: the digits of the text number 10 or 11, the area
   * code `int(numero[:2])` lies in [11, 99], and an 11-digit number has
   * `'9'` as its third digit.
   */
  predicate PhoneOk(s: string)
    ensures PhoneOk(s) ==> |s| >= 10
  {
    var n := OnlyDigits(s);
    (|n| == 10 || |n| == 11)
    && 11 <= DigitsValue(n[..2]) <= 99
    && (|n| == 11 ==> n[2] == '9')
  }

  /**
   * The same rule as a character pattern, `(1[1-9]|[2-9][0-9])` followed by
   * eight digits or by `9` and eight digits.
   */
  predicate PhonePattern(n: string)
    requires AllDigits(n)
  {
    (|n| == 10 || (|n| == 11 && n[2] == '9'))
    && ((n[0] == '1' && n[1] != '0') || '2' <= n[0] <= '9')
  }

  lemma PhoneOkIffPattern(s: string)
    ensures PhoneOk(s) <==> PhonePattern(OnlyDigits(s))
  {
    var n := OnlyDigits(s);
    if |n| >= 2 {
      assert n[..2][..1] == [n[0]];
      assert DigitsValue(n[..2]) == 10 * DigitValue(n[0]) + DigitValue(n[1]);
    }
  }

  /** Punctuation and spaces anywhere in a phone number do not matter. */
  lemma PhoneIgnoresNonDigit(a: string, c: char, b: string)
    requires !IsDigit(c)
    ensures PhoneOk(a + [c] + b) <==> PhoneOk(a + b)
  {
    OnlyDigitsAppend(a + [c], b);
    OnlyDigitsAppend(a, [c]);
    OnlyDigitsAppend(a, b);
    assert OnlyDigits([c]) == [];
    assert OnlyDigits(a) + [] == OnlyDigits(a);
  }

  /**
   * The phone setter: `validar_telefone` runs first, so a non-string fails
   * inside `re.sub`; the original text, punctuation included, is stored.
   */
  function Phone(v: Value): (r: Result<string, Reason>)
    ensures r.Success? ==> v == Str(r.value) && PhoneOk(r.value)
    ensures r.Success? <==> v.Str? && PhoneOk(v.s)
  {
    if !v.Str? then Failure(TypeMismatch)
    else if !PhoneOk(v.s) then Failure(BadFormat)
    else Success(v.s)
  }

  // ---------------------------------------------------------------------
  // CPF: validar_cpf
  // ---------------------------------------------------------------------

  /** `sum(int(d[j]) * (i + 1 - j) for j in range(0, n))`. */
  function WeightedSum(d: string, i: nat, n: nat): int
    requires n <= |d| && AllDigits(d)
  {
    if n == 0 then 0 else WeightedSum(d, i, n - 1) + DigitValue(d[n - 1]) * (i + 1 - (n - 1))
  }

  /** Over a prefix no longer than the largest weight, every weight is positive, so the sum lies in [0, 9 * weights]. */
  lemma {:induction false} WeightedSumBounds(d: string, i: nat, n: nat)
    requires n <= |d| && AllDigits(d) && n <= i + 1
    ensures 0 <= WeightedSum(d, i, n) <= 9 * Weights(i, n)
  {
    if n > 0 {
      WeightedSumBounds(d, i, n - 1);
      var v, w := DigitValue(d[n - 1]), i + 1 - (n - 1);
      assert 0 <= v * w <= 9 * w by {
        assert w >= 1 && v <= 9;
      }
    }
  }

  /** The check digit at position `i`: `(soma * 10 % 11) % 10`. */
  function CheckDigit(d: string, i: nat): (c: nat)
    requires i <= |d| && AllDigits(d)
    ensures c < 10
  {
    (WeightedSum(d, i, i) * 10 % 11) % 10
  }

  /** The loop `for i in range(i, 11)` that compares each check digit. */
  predicate CheckDigitsFrom(d: string, i: nat)
    requires |d| == 11 && AllDigits(d)
    decreases 11 - i
  {
    i >= 11 || (CheckDigit(d, i) == DigitValue(d[i]) && CheckDigitsFrom(d, i + 1))
  }

  /** `cpf == cpf[0] * 11`: every digit is the first one. */
  predicate AllSame(d: string)
  {
    forall k :: 0 <= k < |d| ==> d[k] == d[0]
  }

  /** `validar_cpf`. */
  predicate CpfOk(s: string)
    ensures CpfOk(s) ==> |s| >= 11
  {
    var d := OnlyDigits(s);
    |d| == 11 && !AllSame(d) && CheckDigitsFrom(d, 9)
  }

  /** The weighted sum over the first `n` digits reads only those digits. */
  lemma {:induction false} WeightedSumPrefix(d: string, e: string, i: nat, n: nat)
    requires n <= |d| && n <= |e| && AllDigits(d) && AllDigits(e)
    requires d[..n] == e[..n]
    ensures WeightedSum(d, i, n) == WeightedSum(e, i, n)
  {
    if n > 0 {
      assert d[n - 1] == d[..n][n - 1] == e[..n][n - 1] == e[n - 1];
      assert d[..n - 1] == d[..n][..n - 1];
      assert e[..n - 1] == e[..n][..n - 1];
      WeightedSumPrefix(d, e, i, n - 1);
    }
  }

  /** The 11-digit number made of a 9-digit base and its two check digits. */
  function CompleteCpf(base: string): (d: string)
    requires |base| == 9 && AllDigits(base)
    ensures |d| == 11 && AllDigits(d) && d[..9] == base
  {
    var b10 := base + [DigitChar(CheckDigit(base, 9))];
    b10 + [DigitChar(CheckDigit(b10, 10))]
  }

  /**
   * A CPF is accepted exactly when its digits are a 9-digit base followed by
   * the base's own check digits, and the digits are not all alike.
   */
  lemma CpfOkIffComplete(s: string)
    ensures CpfOk(s) <==> var d := OnlyDigits(s);
      |d| == 11 && !AllSame(d) && d == CompleteCpf(d[..9])
  {
    var d := OnlyDigits(s);
    if |d| == 11 {
      CheckDigitsIffComplete(d);
    }
  }

  /** Eleven digits carry the right check digits exactly when they complete their first nine. */
  lemma CheckDigitsIffComplete(d: string)
    requires |d| == 11 && AllDigits(d)
    ensures CheckDigitsFrom(d, 9) <==> d == CompleteCpf(d[..9])
  {
    var c := CompleteCpf(d[..9]);
    var b10 := d[..9] + [DigitChar(CheckDigit(d[..9], 9))];
    WeightedSumPrefix(d, d[..9], 9, 9);
    WeightedSumPrefix(d, c, 9, 9);
    assert CheckDigit(d, 9) == CheckDigit(d[..9], 9);
    if CheckDigit(d, 9) == DigitValue(d[9]) {
      assert d[..10] == b10[..10];
      WeightedSumPrefix(d, b10, 10, 10);
    }
    if d == c {
      assert d[..10] == b10;
      WeightedSumPrefix(d, b10, 10, 10);
    }
    if CheckDigitsFrom(d, 9) {
      assert d == d[..9] + [d[9]] + [d[10]];
      assert d[9] == DigitChar(CheckDigit(d[..9], 9));
      assert d[..10] == b10;
      WeightedSumPrefix(d, b10, 10, 10);
    }
  }

  /** `sum(i + 1 - j for j in range(0, n))`: the weights alone. */
  function Weights(i: nat, n: nat): int
  {
    if n == 0 then 0 else Weights(i, n - 1) + (i + 1 - (n - 1))
  }

  /** When every digit has value `v`, the weighted sum is `v` times the weights. */
  lemma {:induction false} WeightedSumConstant(d: string, i: nat, n: nat, v: nat)
    requires n <= |d| && AllDigits(d)
    requires forall k :: 0 <= k < n ==> DigitValue(d[k]) == v
    ensures WeightedSum(d, i, n) == v * Weights(i, n)
  {
    if n > 0 {
      WeightedSumConstant(d, i, n - 1, v);
      assert v * Weights(i, n) == v * Weights(i, n - 1) + v * (i + 1 - (n - 1));
    }
  }

  /**
   * Eleven equal digits satisfy both check digits, so only the explicit
   * `cpf == cpf[0] * 11` test keeps them out.
   */
  lemma AllSameSatisfiesChecksum(d: string)
    requires |d| == 11 && AllDigits(d) && AllSame(d)
    ensures CheckDigitsFrom(d, 9)
    ensures !CpfOk(d)
  {
    var v := DigitValue(d[0]);
    assert forall k :: 0 <= k < 11 ==> DigitValue(d[k]) == v;
    WeightedSumConstant(d, 9, 9, v);
    WeightedSumConstant(d, 10, 10, v);
    WeightsOfCpf();
    ConstantCheckDigit(v);
    assert CheckDigit(d, 9) == v && CheckDigit(d, 10) == v;
    assert CheckDigitsFrom(d, 11);
    OnlyDigitsOfDigits(d);
  }

  /** The weights of the two CPF check digits add up to 54 and 65. */
  lemma WeightsOfCpf()
    ensures Weights(9, 9) == 54 && Weights(10, 10) == 65
  {
    assert Weights(9, 3) == 27 && Weights(10, 3) == 30;
    assert Weights(9, 6) == 45 && Weights(10, 6) == 51;
  }

  /** `540 = 49 * 11 + 1` and `650 = 59 * 11 + 1`, so a digit is its own check digit. */
  lemma ConstantCheckDigit(v: nat)
    requires v < 10
    ensures (v * 54 * 10 % 11) % 10 == v && (v * 65 * 10 % 11) % 10 == v
  {
    if v == 0 {
    } else if v == 1 {
    } else if v == 2 {
    } else if v == 3 {
    } else if v == 4 {
    } else if v == 5 {
    } else if v == 6 {
    } else if v == 7 {
    } else if v == 8 {
    } else {
      assert v == 9;
    }
  }

  /** `11144477735` is a valid CPF: its check digits are 3 and 5. */
  lemma CpfExample()
    ensures CpfOk("11144477735")
  {
    CpfExampleSums("11144477735");
  }

  /** Eleven digits, not all alike, whose check digits agree, form a valid CPF. */
  lemma CpfOkOfDigits(d: string)
    requires |d| == 11 && AllDigits(d) && !AllSame(d) && CheckDigitsFrom(d, 9)
    ensures CpfOk(d)
  {
    OnlyDigitsOfDigits(d);
  }

  lemma CpfExampleSums(d: string)
    requires d == "11144477735"
    ensures CpfOk(d)
  {
    assert AllDigits(d);
    var v := seq(11, k requires 0 <= k < 11 => DigitValue(d[k]));
    assert v == [1, 1, 1, 4, 4, 4, 7, 7, 7, 3, 5];
    assert WeightedSum(d, 9, 1) == 10;
    assert WeightedSum(d, 9, 2) == 19;
    assert WeightedSum(d, 9, 3) == 27;
    assert WeightedSum(d, 9, 4) == 55;
    assert WeightedSum(d, 9, 5) == 79;
    assert WeightedSum(d, 9, 6) == 99;
    assert WeightedSum(d, 9, 7) == 127;
    assert WeightedSum(d, 9, 8) == 148;
    assert WeightedSum(d, 9, 9) == 162;
    assert WeightedSum(d, 10, 1) == 11;
    assert WeightedSum(d, 10, 2) == 21;
    assert WeightedSum(d, 10, 3) == 30;
    assert WeightedSum(d, 10, 4) == 62;
    assert WeightedSum(d, 10, 5) == 90;
    assert WeightedSum(d, 10, 6) == 114;
    assert WeightedSum(d, 10, 7) == 149;
    assert WeightedSum(d, 10, 8) == 177;
    assert WeightedSum(d, 10, 9) == 198;
    assert WeightedSum(d, 10, 10) == 204;
    assert !AllSame(d) by {
      assert d[3] != d[0];
    }
    CpfOkOfDigits(d);
  }

  /**
   * The CPF setter: `validar_cpf` runs on the raw value, so a non-string
   * fails inside `re.sub`; the original text is stored.
   */
  function Cpf(v: Value): (r: Result<string, Reason>)
    ensures r.Success? ==> v == Str(r.value) && CpfOk(r.value)
    ensures r.Success? <==> v.Str? && CpfOk(v.s)
  {
    if !v.Str? then Failure(TypeMismatch)
    else if !CpfOk(v.s) then Failure(BadFormat)
    else Success(v.s)
  }
}
