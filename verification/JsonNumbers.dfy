// Which texts the strict parser reads as numbers, and what they are worth, told with decimal digits.
module JsonNumbers {
  import opened Basics
  import opened Text
  import opened Json
  import opened StrictJson
  import opened StrictJsonProofs
  import opened StrictJsonTheorems
  import opened JsonSpelling

  // ----- decimal digits -----

  ghost predicate IsDigitOf(u: CodeUnit, d: int) {
    0 <= d < 10 && u == "0123456789"[d] as int
  }

  ghost predicate SomeDigit(u: CodeUnit) {
    exists d :: IsDigitOf(u, d)
  }

  ghost predicate DigitText(t: Text) {
    forall i :: 0 <= i < |t| ==> SomeDigit(t[i])
  }

  lemma DigitOf(u: CodeUnit, d: int)
    ensures IsDigitOf(u, d) <==> IsDigit(u) && d == u - 0x30
  {
    if 0 <= d < 10 {
      assert "0123456789"[d] as int == 0x30 + d;
    }
  }

  lemma SomeDigitIs(u: CodeUnit)
    ensures SomeDigit(u) <==> IsDigit(u)
  {
    DigitOf(u, u as int - 0x30);
    if d :| IsDigitOf(u, d) {
      DigitOf(u, d);
    }
  }

  lemma DigitsAreTen(t: Text)
    ensures DigitText(t) <==> AllDigits(t)
  {
    hide SomeDigit, IsDigit;
    forall i | 0 <= i < |t| ensures SomeDigit(t[i]) <==> IsDigit(t[i]) {
      SomeDigitIs(t[i]);
    }
  }

  // The number that digits write.
  ghost function ValueOf(t: Text): int {
    if t == [] then 0 else 10 * ValueOf(t[..|t| - 1]) + (t[|t| - 1] - '0' as int)
  }

  lemma {:induction false} ValueIsReal(t: Text)
    ensures DigitsValue(t) == ValueOf(t) as real
  {
    if t != [] {
      ValueIsReal(t[..|t| - 1]);
    }
  }

  lemma {:induction false} ValueIsNat(t: Text)
    requires AllDigits(t)
    ensures DigitsNat(t) == ValueOf(t)
  {
    if t != [] {
      ValueIsNat(t[..|t| - 1]);
    }
  }

  // Printing a natural number writes its digits, without a leading zero.
  lemma {:induction false} DigitsWrite(n: nat)
    ensures DigitText(Digits(n)) && ValueOf(Digits(n)) == n && Digits(n) != []
    ensures n > 0 ==> Digits(n)[0] != '0' as int
    ensures n == 0 ==> Digits(n) == ['0' as int]
  {
    var last: CodeUnit := 0x30 + n % 10;
    SomeDigitIs(last);
    hide SomeDigit;
    if n < 10 {
      assert Digits(n) == [last] && [last][..0] == [];
    } else {
      DigitsWrite(n / 10);
      var init := Digits(n / 10);
      assert Digits(n) == init + [last] && (init + [last])[..|init|] == init;
    }
  }

  // ----- number tokens (RFC 8259, section 6) -----

  ghost predicate NumberSpelling(t: Text, n: Number) {
    && DigitText(n.integer) && DigitText(n.fraction) && DigitText(n.exponent)
    && (n.integer == ['0' as int] || (n.integer != [] && n.integer[0] != '0' as int))
    && (if n.exponent == [] then n.marker == 'e' as int && n.expSign == []
        else (n.marker == 'e' as int || n.marker == 'E' as int)
             && (n.expSign == [] || n.expSign == ['+' as int] || n.expSign == ['-' as int]))
    && t == (if n.negative then ['-' as int] else []) + n.integer
            + (if n.fraction == [] then [] else ['.' as int] + n.fraction)
            + (if n.exponent == [] then [] else [n.marker] + n.expSign + n.exponent)
  }

  lemma TokenIsSpelled(t: Text, n: Number)
    ensures NumberSpelling(t, n) <==> ValidNumber(n) && t == NumberText(n)
  {
    DigitsAreTen(n.integer);
    DigitsAreTen(n.fraction);
    DigitsAreTen(n.exponent);
    hide DigitText;
    if n.integer != [] {
      assert AllDigits(n.integer) ==> IsDigit(n.integer[0]);
    }
  }

  // A text is read as a number exactly when it is the token between blanks and the number is finite.
  lemma NumbersAreSpelled(s: Text, n: Number)
    ensures Parse(s) == Success(Num(n)) <==>
      exists lead, t, trail ::
        BlankText(lead) && BlankText(trail) && s == lead + t + trail && NumberSpelling(t, n) && IsFinite(n)
  {
    ParseIsCorrect(s, Num(n));
    hide Parse, NumberSpelling, NumberText, ValidNumber, BlankText, Finite;
    if Within(Num(n)) && exists c :: JsonText(s, c) && Meaning(c) == Num(n) {
      var c :| JsonText(s, c) && Meaning(c) == Num(n);
      var lead: Text, trail: Text :| Blank(lead) && Blank(trail) && s == lead + Render(c) + trail;
      BlanksAreFour(lead);
      BlanksAreFour(trail);
      TokenIsSpelled(NumberText(n), n);
      FiniteIs(n);
      assert s == lead + NumberText(n) + trail;
    }
    if lead, t, trail :|
      BlankText(lead) && BlankText(trail) && s == lead + t + trail && NumberSpelling(t, n) && IsFinite(n)
    {
      BlanksAreFour(lead);
      BlanksAreFour(trail);
      TokenIsSpelled(t, n);
      FiniteIs(n);
      assert JsonText(s, NumberLiteral(n)) && Meaning(NumberLiteral(n)) == Num(n);
    }
  }

  // ----- what a token is worth -----

  // The value, scaled up until its digits are those of an integer.
  ghost predicate IsWorth(n: Number, v: real) {
    var digits := ValueOf(n.integer + n.fraction) as real;
    Scales(v, Pow(10.0, |n.fraction|), Pow(10.0, Exponent10(n)), if n.negative then -digits else digits,
           n.expSign == ['-' as int])
  }

  ghost predicate Scales(v: real, f: real, e: real, digits: real, down: bool) {
    if down then v * f * e == digits else v * f == digits * e
  }

  ghost function Exponent10(n: Number): nat {
    var e := ValueOf(n.exponent);
    if e < 0 then 0 else e
  }

  lemma WorthIs(n: Number)
    requires ValidNumber(n)
    ensures IsWorth(n, NumberValue(n))
  {
    ValueIsReal(n.integer + n.fraction);
    ValueIsNat(n.exponent);
    PowAtLeastOne(10.0, |n.fraction|);
    PowAtLeastOne(10.0, DigitsNat(n.exponent));
    var digits, f, e := DigitsValue(n.integer + n.fraction), Pow(10.0, |n.fraction|), Pow(10.0, DigitsNat(n.exponent));
    Parts(n, digits, f, e);
    hide Pow, ValueOf, DigitsValue, DigitsNat, NumberValue, ScaledBy, Scales;
    if n.expSign == [MINUS] { ScaledDown(digits, f, e, n.negative); } else { ScaledUp(digits, f, e, n.negative); }
  }

  ghost function ScaledBy(digits: real, f: real, e: real, negative: bool, down: bool): real
    requires f >= 1.0 && e >= 1.0
  {
    var m := if down then digits / f / e else digits / f * e;
    if negative then -m else m
  }

  lemma Parts(n: Number, digits: real, f: real, e: real)
    requires ValidNumber(n) && f >= 1.0 && e >= 1.0
    requires digits == DigitsValue(n.integer + n.fraction) && f == Pow(10.0, |n.fraction|)
      && e == Pow(10.0, DigitsNat(n.exponent))
    ensures NumberValue(n) == ScaledBy(digits, f, e, n.negative, n.expSign == [MINUS])
  {
    hide Pow, DigitsValue, DigitsNat;
  }

  lemma ScaledDown(digits: real, f: real, e: real, negative: bool)
    requires f >= 1.0 && e >= 1.0
    ensures Scales(ScaledBy(digits, f, e, negative, true), f, e, if negative then -digits else digits, true)
  {
    Scaling(digits, f, e);
  }

  lemma ScaledUp(digits: real, f: real, e: real, negative: bool)
    requires f >= 1.0 && e >= 1.0
    ensures Scales(ScaledBy(digits, f, e, negative, false), f, e, if negative then -digits else digits, false)
  {
    Scaling(digits, f, e);
  }

  lemma Scaling(digits: real, f: real, e: real)
    requires f >= 1.0 && e >= 1.0
    ensures digits / f / e * f * e == digits && -(digits / f / e) * f * e == -digits
    ensures digits / f * e * f == digits * e && -(digits / f * e) * f == -digits * e
  {
    var m := digits / f;
    assert m * f == digits;
    var q := m / e;
    assert q * e == m;
    assert q * f * e == m * f;
    assert m * e * f == digits * e;
  }

  // The worth is below the first number that rounds to infinity, on either side.
  ghost predicate IsFinite(n: Number) {
    forall v: real :: IsWorth(n, v) ==> -FirstInfinite() < v < FirstInfinite()
  }

  // 2^1024 - 2^970
  ghost function FirstInfinite(): real {
    Pow(2.0, 1024) - Pow(2.0, 970)
  }

  lemma BoundIs()
    ensures FirstInfinite() == 18014398509481983.0 * Pow(2.0, 970)
  {
    PowSum(2.0, 54, 970);
    assert Pow(2.0, 3) == 8.0;
    PowSum(2.0, 3, 3);
    PowSum(2.0, 6, 6);
    PowSum(2.0, 12, 6);
    PowSum(2.0, 18, 18);
    PowSum(2.0, 36, 18);
  }

  lemma {:induction false} PowSum(b: real, j: nat, k: nat)
    ensures Pow(b, j + k) == Pow(b, j) * Pow(b, k)
  {
    if j > 0 {
      PowSum(b, j - 1, k);
    }
  }

  lemma OneWorth(n: Number, v: real)
    requires ValidNumber(n) && IsWorth(n, v)
    ensures v == NumberValue(n)
  {
    WorthIs(n);
    PowAtLeastOne(10.0, |n.fraction|);
    PowAtLeastOne(10.0, Exponent10(n));
    var f, e := Pow(10.0, |n.fraction|), Pow(10.0, Exponent10(n));
    var w := NumberValue(n);
    hide NumberValue, Pow;
    SameScale(v, w, f, e, if n.negative then -(ValueOf(n.integer + n.fraction) as real)
                          else ValueOf(n.integer + n.fraction) as real, n.expSign == ['-' as int]);
  }

  lemma SameScale(v: real, w: real, f: real, e: real, digits: real, down: bool)
    requires f >= 1.0 && e >= 1.0 && Scales(v, f, e, digits, down) && Scales(w, f, e, digits, down)
    ensures v == w
  {
    Cancel(v, w, f);
    Cancel(v * f, w * f, e);
  }

  lemma Cancel(v: real, w: real, f: real)
    requires f >= 1.0
    ensures v * f == w * f ==> v == w
  {
    if v < w { Less(v, w, f); } else if w < v { Less(w, v, f); }
  }

  lemma Less(v: real, w: real, f: real)
    requires f >= 1.0 && v < w
    ensures v * f < w * f
  {}

  lemma FiniteIs(n: Number)
    requires ValidNumber(n)
    ensures IsFinite(n) <==> Finite(n)
  {
    BoundIs();
    WorthIs(n);
    hide IsWorth, NumberValue, FirstInfinite, Pow;
    if Finite(n) {
      forall v: real | IsWorth(n, v) ensures -FirstInfinite() < v < FirstInfinite() {
        OneWorth(n, v);
      }
    }
  }

  // ----- the largest exponent -----

  lemma {:induction false} PowOfPow(b: real, m: nat, k: nat)
    ensures Pow(Pow(b, m), k) == Pow(b, m * k)
  {
    if k > 0 {
      PowOfPow(b, m, k - 1);
      PowSum(b, m, m * (k - 1));
      assert m + m * (k - 1) == m * k;
    }
  }

  lemma {:induction false} PowOrder(a: real, b: real, k: nat)
    requires 0.0 <= a <= b
    ensures 0.0 <= Pow(a, k) <= Pow(b, k)
  {
    if k > 0 {
      PowOrder(a, b, k - 1);
      Products(a, b, Pow(a, k - 1), Pow(b, k - 1));
    }
  }

  lemma Products(a: real, b: real, x: real, y: real)
    requires 0.0 <= a <= b && 0.0 <= x <= y
    ensures 0.0 <= a * x <= b * y
  {
    assert a * x <= b * x <= b * y;
  }

  lemma {:induction false} PowOfProduct(a: real, b: real, k: nat)
    ensures Pow(a * b, k) == Pow(a, k) * Pow(b, k)
  {
    if k > 0 {
      PowOfProduct(a, b, k - 1);
      Shuffle(a, b, Pow(a, k - 1), Pow(b, k - 1));
    }
  }

  lemma Shuffle(a: real, b: real, x: real, y: real)
    ensures a * b * (x * y) == a * x * (b * y)
  {}

  lemma TwoTo93()
    ensures Pow(2.0, 93) == 9903520314283042199192993792.0
  {
    assert Pow(2.0, 3) == 8.0;
    PowSum(2.0, 3, 3);
    PowSum(2.0, 6, 6);
    PowSum(2.0, 12, 12);
    PowSum(2.0, 24, 24);
    PowSum(2.0, 48, 24);
    PowSum(2.0, 72, 12);
    PowSum(2.0, 84, 6);
    PowSum(2.0, 90, 3);
  }

  lemma TenTo28()
    ensures Pow(10.0, 28) == 10000000000000000000000000000.0
  {
    assert Pow(10.0, 7) == 10000000.0 by {
      assert Pow(10.0, 3) == 1000.0;
      PowSum(10.0, 3, 3);
      PowSum(10.0, 6, 1);
    }
    PowSum(10.0, 7, 7);
    PowSum(10.0, 14, 14);
  }

  // 10^308 lies between 2^1023 and one and a half times that.
  lemma TenTo308()
    ensures Pow(2.0, 1023) <= Pow(10.0, 308) <= 1.5 * Pow(2.0, 1023)
  {
    TwoTo93();
    TenTo28();
    var two, ten := Pow(2.0, 93), Pow(10.0, 28);
    PowOfPow(2.0, 93, 11);
    PowOfPow(10.0, 28, 11);
    PowOrder(two, ten, 11);
    PowOrder(ten, 1.01 * two, 11);
    PowOfProduct(1.01, two, 11);
    assert Pow(1.01, 11) <= 1.5;
    Products(Pow(1.01, 11), 1.5, Pow(two, 11), Pow(two, 11));
  }

  lemma FirstInfiniteIsHigh()
    ensures 1.5 * Pow(2.0, 1023) < FirstInfinite() <= 2.0 * Pow(2.0, 1023)
  {
    PowSum(2.0, 53, 970);
    PowAtLeastOne(2.0, 970);
    TwoTo53();
    var small := Pow(2.0, 970);
    assert Pow(2.0, 1024) == 2.0 * Pow(2.0, 1023);
    assert Pow(2.0, 1023) == 9007199254740992.0 * small;
    hide Pow;
  }

  lemma TwoTo53()
    ensures Pow(2.0, 53) == 9007199254740992.0
  {
    assert Pow(2.0, 3) == 8.0;
    PowSum(2.0, 3, 3);
    PowSum(2.0, 6, 6);
    PowSum(2.0, 12, 12);
    PowSum(2.0, 24, 24);
    PowSum(2.0, 48, 3);
    PowSum(2.0, 51, 2);
    assert Pow(2.0, 2) == 4.0;
  }

  lemma {:induction false} PowGrows(j: nat, k: nat)
    requires j <= k
    ensures 1.0 <= Pow(10.0, j) <= Pow(10.0, k)
  {
    PowAtLeastOne(10.0, j);
    if j < k {
      PowGrows(j, k - 1);
    }
  }

  lemma LargestPower(k: nat)
    ensures Pow(10.0, k) < FirstInfinite() <==> k <= 308
  {
    TenTo308();
    FirstInfiniteIsHigh();
    var half := Pow(2.0, 1023);
    assert Pow(10.0, 309) == 10.0 * Pow(10.0, 308);
    PowAtLeastOne(2.0, 1023);
    if k <= 308 { PowGrows(k, 308); } else { PowGrows(309, k); }
    hide Pow, FirstInfinite;
  }

  // A one and an exponent is read exactly up to 308, and malformed beyond: 1e400 is.
  lemma OneAndExponent(k: nat)
    ensures var s := ['1' as int, 'e' as int] + Digits(k);
      if k <= 308 then Parse(s) == Success(Num(Number(false, ['1' as int], [], 'e' as int, [], Digits(k))))
      else Parse(s) == Failure(Malformed)
  {
    var n := Number(false, ['1' as int], [], 'e' as int, [], Digits(k));
    var s: Text := ['1' as int, 'e' as int] + Digits(k);
    OneIsSpelled(k);
    WorthOfPower(k);
    LargestPower(k);
    PowAtLeastOne(10.0, k);
    FirstInfiniteIsHigh();
    PowAtLeastOne(2.0, 1023);
    FiniteIs(n);
    hide NumberSpelling, NumberText, Finite, IsFinite, IsWorth, Parse, Pow, FirstInfinite;
    if k <= 308 {
      assert [] + s + [] == s;
      assert BlankText([]);
      NumbersAreSpelled(s, n);
    } else {
      InfiniteIsMalformed(s, n);
    }
  }

  lemma OneIsSpelled(k: nat)
    ensures var n := Number(false, ['1' as int], [], 'e' as int, [], Digits(k));
      var s: Text := ['1' as int, 'e' as int] + Digits(k);
      NumberSpelling(s, n) && ValidNumber(n) && s == NumberText(n)
  {
    var n := Number(false, ['1' as int], [], 'e' as int, [], Digits(k));
    var s: Text := ['1' as int, 'e' as int] + Digits(k);
    DigitsWrite(k);
    OneIsDigit();
    hide DigitText, ValueOf, Digits;
    TokenIsSpelled(s, n);
  }

  lemma OneIsDigit()
    ensures DigitText(['1' as int]) && ValueOf(['1' as int]) == 1
  {
    assert IsDigitOf('1' as int, 1);
    assert SomeDigit('1' as int);
    assert ['1' as int][..0] == [];
  }

  lemma WorthOfPower(k: nat)
    ensures IsFinite(Number(false, ['1' as int], [], 'e' as int, [], Digits(k))) <==>
      -FirstInfinite() < Pow(10.0, k) < FirstInfinite()
  {
    var n := Number(false, ['1' as int], [], 'e' as int, [], Digits(k));
    hide FirstInfinite, Pow, IsWorth;
    forall v: real ensures IsWorth(n, v) <==> v == Pow(10.0, k) {
      WorthIsPower(k, v);
    }
    assert IsWorth(n, Pow(10.0, k));
  }

  lemma WorthIsPower(k: nat, v: real)
    ensures IsWorth(Number(false, ['1' as int], [], 'e' as int, [], Digits(k)), v) <==> v == Pow(10.0, k)
  {
    DigitsWrite(k);
    OneIsDigit();
    PowOfNone();
    ScalesOne(v, Pow(10.0, k));
    hide ValueOf, Pow, Scales, Digits;
    var one: Text := ['1' as int];
    assert one + [] == one;
  }

  lemma PowOfNone()
    ensures Pow(10.0, 0) == 1.0
  {}

  lemma ScalesOne(v: real, e: real)
    ensures Scales(v, 1.0, e, 1.0, false) <==> v == e
  {}

  lemma InfiniteIsMalformed(s: Text, n: Number)
    requires NumberSpelling(s, n) && ValidNumber(n) && s == NumberText(n) && !Finite(n)
    ensures Parse(s) == Failure(Malformed)
  {
    var c := NumberLiteral(n);
    RenderStarts(c);
    SkipBlank([], s);
    assert [] + s == s && s + [] == s;
    ParseRendered(c, [], 0, 0);
    hide NumberSpelling, NumberText, Finite, ValidNumber, ReadNumber;
  }
}
