/** Laws of the calculator's operations that relate several calls, and the
    concrete values the operations produce on small inputs. */
module BinaryLaws {
  import opened Bits
  import opened BinaryCalculator

  // The values of the literals the examples below use, one digit at a time.

  lemma Val1()
    ensures Val("1") == 1
  {
    ValSnoc("", '1');
    assert "" + ['1'] == "1";
  }

  lemma Val10()
    ensures Val("10") == 2
  {
    Val1();
    ValSnoc("1", '0');
    assert "1" + ['0'] == "10";
  }

  lemma Val11()
    ensures Val("11") == 3
  {
    Val1();
    ValSnoc("1", '1');
    assert "1" + ['1'] == "11";
  }

  lemma Val100()
    ensures Val("100") == 4
  {
    Val10();
    ValSnoc("10", '0');
    assert "10" + ['0'] == "100";
  }

  lemma Val101()
    ensures Val("101") == 5
  {
    Val10();
    ValSnoc("10", '1');
    assert "10" + ['1'] == "101";
  }

  lemma Val110()
    ensures Val("110") == 6
  {
    Val11();
    ValSnoc("11", '0');
    assert "11" + ['0'] == "110";
  }

  lemma Val111()
    ensures Val("111") == 7
  {
    Val11();
    ValSnoc("11", '1');
    assert "11" + ['1'] == "111";
  }

  lemma Val1000()
    ensures Val("1000") == 8
  {
    Val100();
    ValSnoc("100", '0');
    assert "100" + ['0'] == "1000";
  }

  lemma Val000101()
    ensures Val("000101") == 5
  {
    Val101();
    assert "000101" == "000" + "101";
    ValConcat("000", "101");
    ValZeroIffNoOnes("000");
  }

  // ---------------------------------------------------------------------------
  // Construction

  /** Re-constructing from a stored value gives the same value back. */
  lemma ConstructIdempotent(raw: string)
    ensures Construct(Construct(raw).number) == Construct(raw)
  {
  }

  lemma ConstructExamples()
    ensures Construct("000101").number == "101"
    ensures Construct("").number == "0"
    ensures Construct("000").number == "0"
    ensures Construct("12a").number == "0"
    ensures Construct("1").number == "1"
  {
    Val000101();
    Val101();
    assert IsBinary("000101");
    assert Canonical("101");
    CanonicalValUnique(Construct("000101").number, "101");
    ConstructAllZeros("");
    ConstructAllZeros("000");
    assert !IsDigit("12a"[1]);
    assert Canonical("1");
  }

  // ---------------------------------------------------------------------------
  // Addition

  lemma AddCommutative(a: Binary, b: Binary)
    ensures Add(a, b) == Add(b, a)
  {
    CanonicalValUnique(Add(a, b).number, Add(b, a).number);
  }

  lemma AddAssociative(a: Binary, b: Binary, c: Binary)
    ensures Add(Add(a, b), c) == Add(a, Add(b, c))
  {
    CanonicalValUnique(Add(Add(a, b), c).number, Add(a, Add(b, c)).number);
  }

  /** "0" is a right identity of addition. */
  lemma AddZeroIdentity(a: Binary)
    requires a.Valid()
    ensures Add(a, Zero) == a
  {
    assert Val(Zero.number) == 0;
    CanonicalValUnique(Add(a, Zero).number, a.number);
  }

  /** The sum is the one canonical string with the summed value. */
  lemma AddGives(a: Binary, b: Binary, expected: string)
    requires Canonical(expected) && Val(expected) == Val(a.number) + Val(b.number)
    ensures Add(a, b).number == expected
  {
    CanonicalValUnique(Add(a, b).number, expected);
  }

  lemma AddExample()
    ensures Add(Binary("11"), Binary("1")).number == "100"
  {
    Val1();
    Val11();
    Val100();
    assert Canonical("100");
    AddGives(Binary("11"), Binary("1"), "100");
  }

  /** The carry ripples out into a longer result. */
  lemma AddCarriesOut()
    ensures Add(Binary("111"), Binary("1")).number == "1000"
  {
    Val1();
    Val111();
    Val1000();
    assert Canonical("1000");
    AddGives(Binary("111"), Binary("1"), "1000");
  }

  // ---------------------------------------------------------------------------
  // Bitwise OR / AND

  lemma OrIdempotent(a: Binary)
    requires a.Valid()
    ensures Or(a, a) == a
  {
    CanonicalBitsUnique(Or(a, a).number, a.number);
  }

  lemma AndIdempotent(a: Binary)
    requires a.Valid()
    ensures And(a, a) == a
  {
    CanonicalBitsUnique(And(a, a).number, a.number);
  }

  lemma OrCommutative(a: Binary, b: Binary)
    ensures Or(a, b) == Or(b, a)
  {
    CanonicalBitsUnique(Or(a, b).number, Or(b, a).number);
  }

  lemma AndCommutative(a: Binary, b: Binary)
    ensures And(a, b) == And(b, a)
  {
    CanonicalBitsUnique(And(a, b).number, And(b, a).number);
  }

  lemma OrAssociative(a: Binary, b: Binary, c: Binary)
    ensures Or(Or(a, b), c) == Or(a, Or(b, c))
  {
    CanonicalBitsUnique(Or(Or(a, b), c).number, Or(a, Or(b, c)).number);
  }

  lemma AndAssociative(a: Binary, b: Binary, c: Binary)
    ensures And(And(a, b), c) == And(a, And(b, c))
  {
    CanonicalBitsUnique(And(And(a, b), c).number, And(a, And(b, c)).number);
  }

  /** Each of OR and AND absorbs the other. */
  lemma Absorption(a: Binary, b: Binary)
    requires a.Valid()
    ensures Or(a, And(a, b)) == a
    ensures And(a, Or(a, b)) == a
  {
    CanonicalBitsUnique(Or(a, And(a, b)).number, a.number);
    CanonicalBitsUnique(And(a, Or(a, b)).number, a.number);
  }

  /** "0" is an identity of OR. */
  lemma OrZeroIdentity(a: Binary)
    requires a.Valid()
    ensures Or(a, Zero) == a
  {
    assert forall i: nat :: !BitAt(Zero.number, i);
    CanonicalBitsUnique(Or(a, Zero).number, a.number);
  }

  /** "0" absorbs AND, whatever the other operand holds. */
  lemma AndZeroAbsorbs(a: Binary)
    ensures And(a, Zero) == Zero
  {
    assert forall i: nat :: !BitAt(Zero.number, i);
    CanonicalBitsUnique(And(a, Zero).number, Zero.number);
  }

  /** The digits are right-aligned before they are combined. */
  lemma OrExample(a: Binary, b: Binary)
    requires a.number == "101" && b.number == "011"
    ensures Or(a, b).number == "111"
  {
    var r := Or(a, b).number;
    forall i: nat
      ensures BitAt(r, i) == BitAt("111", i)
    {
      if i < 3 {
        assert BitAt("111", i);
        if i == 1 {
          assert BitAt("011", i);
        } else {
          assert BitAt("101", i);
        }
      }
    }
    CanonicalBitsUnique(r, "111");
  }

  /** AND's leading zeros are stripped by the constructor. */
  lemma AndExample(a: Binary, b: Binary)
    requires a.number == "101" && b.number == "011"
    ensures And(a, b).number == "1"
  {
    var q := And(a, b).number;
    forall i: nat
      ensures BitAt(q, i) == BitAt("1", i)
    {
      if i == 0 {
        assert BitAt("101", i) && BitAt("011", i) && BitAt("1", i);
      } else if i < 3 {
        assert !BitAt("1", i);
        if i == 1 {
          assert !BitAt("101", i);
        } else {
          assert !BitAt("011", i);
        }
      }
    }
    CanonicalBitsUnique(q, "1");
  }

  // ---------------------------------------------------------------------------
  // Multiplication

  /** The working-string step changes nothing once bit 0 is clear. */
  lemma WorkingStepIdempotent(current: string)
    requires |current| > 0
    ensures WorkingStep(WorkingStep(current)) == WorkingStep(current)
  {
    var w := WorkingStep(current);
    assert w == current[..|current| - 1] + "0";
    assert w[..|w| - 1] == current[..|current| - 1];
  }

  /** The working string `MultiplyFrom` carries is never widened: from the
      second iteration on it is the multiplicand with its last digit set to
      '0'. */
  lemma {:induction false} MultiplyWorkingString(a: string, i: nat)
    requires |a| > 0 && i >= 1
    ensures Working(a, i) == WorkingStep(a)
    ensures |Working(a, i)| == |a|
    ensures Working(a, i)[|a| - 1] == '0'
    decreases i
  {
    if i > 1 {
      MultiplyWorkingString(a, i - 1);
      WorkingStepIdempotent(a);
    }
  }

  /** What `multiply` computes for a non-zero multiplier: the multiplicand
      once for the leading '1', plus its even part once for every later '1'. */
  lemma MultiplyValue(a: Binary, b: Binary)
    requires a.Valid() && b.Valid() && b != Zero
    ensures Val(Multiply(a, b).number)
              == Val(a.number) + Ones(b.number[1..]) * (Val(a.number) - Val(a.number) % 2)
  {
    assert IsDigit(b.number[0]);
    assert b.number[0] == '1';
    ScaleIsProduct(Ones(b.number[1..]), Even(Val(a.number)));
  }

  /** The value `multiply` produces, read off for known operand values: the
      canonical string with that value is the result. */
  lemma MultiplyGives(a: Binary, b: Binary, va: nat, k: nat, expected: string)
    requires a.Valid() && b.Valid() && b != Zero && Canonical(expected)
    requires Val(a.number) == va && Ones(b.number[1..]) == k
    requires Val(expected) == va + Scale(k, Even(va))
    ensures Multiply(a, b).number == expected
  {
    assert IsDigit(b.number[0]);
    assert b.number[0] == '1';
    CanonicalValUnique(Multiply(a, b).number, expected);
  }

  lemma MultiplyByZero(a: Binary)
    requires a.Valid()
    ensures Multiply(a, Zero) == Zero
  {
    var r := Multiply(a, Zero);
    assert Zero.number[1..] == [];
    assert Val(r.number) == 0;
    CanonicalZero(r.number);
  }

  lemma MultiplyByOne(a: Binary)
    requires a.Valid()
    ensures Multiply(a, Binary("1")) == a
  {
    var r := Multiply(a, Binary("1"));
    assert "1"[1..] == [];
    CanonicalValUnique(r.number, a.number);
  }

  /** `multiply` is not the product its documentation promises: 3 times 2
      comes out as 3. */
  lemma MultiplyIsNotProduct()
    ensures Val("11") * Val("10") == 6
    ensures Multiply(Binary("11"), Binary("10")).number == "11"
  {
    Val11();
    Val10();
    assert Canonical("11") && Canonical("10");
    assert "10"[1..] == "0" && Ones("0") == 0;
    MultiplyGives(Binary("11"), Binary("10"), 3, 0, "11");
  }

  /** 3 times 3 comes out as 5: the second '1' adds 3 with bit 0 cleared. */
  lemma MultiplyThreeByThree()
    ensures Multiply(Binary("11"), Binary("11")).number == "101"
  {
    Val11();
    Val101();
    assert Canonical("11") && Canonical("101");
    assert "11"[1..] == "1" && Ones("1") == 1;
    MultiplyGives(Binary("11"), Binary("11"), 3, 1, "101");
  }

  /** 1 times 2 comes out as 1: "1" with bit 0 cleared adds nothing. */
  lemma MultiplyOneByTwo()
    ensures Multiply(Binary("1"), Binary("10")).number == "1"
  {
    Val1();
    assert Canonical("1") && Canonical("10");
    assert "10"[1..] == "0" && Ones("0") == 0;
    MultiplyGives(Binary("1"), Binary("10"), 1, 0, "1");
  }

  /** 2 times 3 comes out as 4; with the operands swapped (see
      `MultiplyIsNotProduct`) it comes out as 3, so the order matters. */
  lemma MultiplyTwoByThree()
    ensures Multiply(Binary("10"), Binary("11")).number == "100"
  {
    Val10();
    Val100();
    assert Canonical("10") && Canonical("11") && Canonical("100");
    assert "11"[1..] == "1" && Ones("1") == 1;
    MultiplyGives(Binary("10"), Binary("11"), 2, 1, "100");
  }

  /** The corrected product is the one canonical string with the product's
      value. */
  lemma MultiplyCorrectedGives(a: Binary, b: Binary, expected: string)
    requires a.Valid() && Canonical(expected)
    requires Val(expected) == Val(a.number) * Val(b.number)
    ensures MultiplyCorrected(a, b).number == expected
  {
    CanonicalValUnique(MultiplyCorrected(a, b).number, expected);
  }

  lemma MultiplyCorrectedCommutative(a: Binary, b: Binary)
    requires a.Valid() && b.Valid()
    ensures MultiplyCorrected(a, b) == MultiplyCorrected(b, a)
  {
    CanonicalValUnique(MultiplyCorrected(a, b).number, MultiplyCorrected(b, a).number);
  }

  /** The repaired loop gives the products the as-written one misses. */
  lemma MultiplyCorrectedExamples()
    ensures MultiplyCorrected(Binary("11"), Binary("10")).number == "110"
  {
    Val1();
    Val10();
    Val11();
    Val110();
    assert Canonical("11") && Canonical("1") && Canonical("110") && Canonical("10");
    MultiplyCorrectedGives(Binary("11"), Binary("10"), "110");
  }
}
