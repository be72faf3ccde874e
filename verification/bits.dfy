/** Digit strings as the calculator stores them: characters, most significant
    digit first, and the natural number such a string denotes. */
module Bits {

  function Max(a: int, b: int): int {
    if a < b then b else a
  }

  /** The weight of one digit character. Anything other than '1' weighs 0, which
      is how the addition and bitwise loops read a digit. */
  function Bit(c: char): nat {
    if c == '1' then 1 else 0
  }

  function Pow2(n: nat): nat {
    if n == 0 then 1 else 2 * Pow2(n - 1)
  }

  /** The abstraction function: the number a digit string denotes, read most
      significant digit first. */
  function Val(s: string): nat
    decreases |s|
  {
    if |s| == 0 then 0 else 2 * Val(s[..|s| - 1]) + Bit(s[|s| - 1])
  }

  /** Number of '1' digits in `s`. */
  function Ones(s: string): nat
    decreases |s|
  {
    if |s| == 0 then 0 else Bit(s[0]) + Ones(s[1..])
  }

  /** `k` copies of `v` added up: multiplication by a count, defined so that
      proofs about it stay within linear arithmetic. */
  function Scale(k: nat, v: nat): nat
    decreases k
  {
    if k == 0 then 0 else v + Scale(k - 1, v)
  }

  predicate IsDigit(c: char) {
    c == '0' || c == '1'
  }

  predicate IsBinary(s: string) {
    forall i :: 0 <= i < |s| ==> IsDigit(s[i])
  }

  /** The representation invariant of a stored value: non-empty, digits only,
      and no leading '0' unless the whole value is "0". */
  predicate Canonical(s: string) {
    |s| > 0 && IsBinary(s) && (s[0] == '0' ==> s == "0")
  }

  /** Bit `i` of `s`, counted from the least significant end, with every
      position beyond the string reading as 0 (right alignment, zero padding). */
  predicate BitAt(s: string, i: nat) {
    i < |s| && s[|s| - 1 - i] == '1'
  }

  lemma {:induction false} Pow2Monotone(m: nat, n: nat)
    requires m <= n
    ensures Pow2(m) <= Pow2(n)
    decreases n
  {
    if m < n {
      Pow2Monotone(m, n - 1);
    }
  }

  lemma {:induction false} ScaleIsProduct(k: nat, v: nat)
    ensures Scale(k, v) == k * v
    decreases k
  {
    if k > 0 {
      ScaleIsProduct(k - 1, v);
      assert k * v == v + (k - 1) * v;
    }
  }

  /** Appending one digit doubles the value and adds the digit. */
  lemma ValSnoc(s: string, c: char)
    ensures Val(s + [c]) == 2 * Val(s) + Bit(c)
  {
    assert (s + [c])[..|s|] == s;
  }

  /** Appending digits multiplies the value of the prefix by a power of two. */
  lemma {:induction false} ValConcat(s: string, t: string)
    ensures Val(s + t) == Val(s) * Pow2(|t|) + Val(t)
    decreases |t|
  {
    if |t| == 0 {
      assert s + t == s;
    } else {
      var t', c := t[..|t| - 1], t[|t| - 1];
      assert t == t' + [c];
      assert s + t == (s + t') + [c];
      ValSnoc(s + t', c);
      ValSnoc(t', c);
      ValConcat(s, t');
      ConcatArithmetic(Val(s + t), Val(s + t'), Val(s), Pow2(|t'|), Val(t'), Val(t), Bit(c));
    }
  }

  /** The arithmetic step of `ValConcat`, kept apart from the strings. */
  lemma ConcatArithmetic(x: int, y: int, v: int, p: int, w: int, z: int, b: int)
    requires x == 2 * y + b && y == v * p + w && z == 2 * w + b
    ensures x == v * (2 * p) + z
  {
  }

  lemma IsBinarySnoc(s: string, c: char)
    requires IsBinary(s) && IsDigit(c)
    ensures IsBinary(s + [c])
  {
    assert forall k :: 0 <= k < |s| ==> (s + [c])[k] == s[k];
  }

  /** A string denotes zero exactly when it holds no '1'. */
  lemma {:induction false} ValZeroIffNoOnes(s: string)
    ensures Val(s) == 0 <==> forall i :: 0 <= i < |s| ==> s[i] != '1'
    decreases |s|
  {
    if |s| > 0 {
      var p := s[..|s| - 1];
      ValZeroIffNoOnes(p);
      if Val(s) == 0 {
        forall i | 0 <= i < |s|
          ensures s[i] != '1'
        {
          if i < |s| - 1 {
            assert s[i] == p[i];
          }
        }
      } else if forall i :: 0 <= i < |s| ==> s[i] != '1' {
        forall i | 0 <= i < |p|
          ensures p[i] != '1'
        {
          assert p[i] == s[i];
        }
        assert false;
      }
    }
  }

  lemma {:induction false} ValBelowPow2(s: string)
    ensures Val(s) < Pow2(|s|)
    decreases |s|
  {
    if |s| > 0 {
      ValBelowPow2(s[..|s| - 1]);
    }
  }

  /** A string whose first digit is '1' is at least 2^(|s|-1). */
  lemma ValLeadingOne(s: string)
    requires |s| > 0 && s[0] == '1'
    ensures Val(s) >= Pow2(|s| - 1)
  {
    assert s == s[..1] + s[1..];
    assert s[..1][..0] == [];
    assert Val(s[..1]) == 1;
    ValConcat(s[..1], s[1..]);
  }

  /** Two digit strings of the same length and value are equal. */
  lemma {:induction false} ValInjective(s: string, t: string)
    requires IsBinary(s) && IsBinary(t)
    requires |s| == |t| && Val(s) == Val(t)
    ensures s == t
    decreases |s|
  {
    if |s| > 0 {
      var n := |s|;
      assert IsDigit(s[n - 1]) && IsDigit(t[n - 1]);
      assert Bit(s[n - 1]) == Bit(t[n - 1]);
      assert s[n - 1] == t[n - 1];
      ValInjective(s[..n - 1], t[..n - 1]);
      assert s == s[..n - 1] + [s[n - 1]];
      assert t == t[..n - 1] + [t[n - 1]];
    }
  }

  /** A canonical string with value zero is "0". */
  lemma CanonicalZero(s: string)
    requires Canonical(s) && Val(s) == 0
    ensures s == "0"
  {
    ValZeroIffNoOnes(s);
    assert IsDigit(s[0]);
  }

  /** The canonical representation of a number is unique. */
  lemma CanonicalValUnique(s: string, t: string)
    requires Canonical(s) && Canonical(t)
    requires Val(s) == Val(t)
    ensures s == t
  {
    if Val(s) == 0 {
      CanonicalZero(s);
      CanonicalZero(t);
    } else {
      assert IsDigit(s[0]) && IsDigit(t[0]);
      assert s != "0" && t != "0";
      ValLeadingOne(s);
      ValLeadingOne(t);
      ValBelowPow2(s);
      ValBelowPow2(t);
      if |s| < |t| {
        Pow2Monotone(|s|, |t| - 1);
      } else if |t| < |s| {
        Pow2Monotone(|t|, |s| - 1);
      }
      ValInjective(s, t);
    }
  }

  /** A canonical string is determined by its bits. */
  lemma CanonicalBitsUnique(s: string, t: string)
    requires Canonical(s) && Canonical(t)
    requires forall i: nat :: BitAt(s, i) == BitAt(t, i)
    ensures s == t
  {
    assert IsDigit(s[0]) && IsDigit(t[0]);
    if s[0] == '0' {
      assert !BitAt(s, |t| - 1);
    } else {
      assert BitAt(s, |s| - 1) && BitAt(t, |s| - 1);
      assert t[0] == '1';
      assert BitAt(t, |t| - 1) && BitAt(s, |t| - 1);
      assert |s| == |t|;
      forall j | 0 <= j < |s|
        ensures s[j] == t[j]
      {
        assert BitAt(s, |s| - 1 - j) == BitAt(t, |s| - 1 - j);
        assert IsDigit(s[j]) && IsDigit(t[j]);
      }
    }
  }

  /** Leading '0' digits change neither the value nor any bit. */
  lemma LeadingZerosInvisible(s: string, k: nat)
    requires k <= |s|
    requires forall j :: 0 <= j < k ==> s[j] == '0'
    ensures Val(s[k..]) == Val(s)
    ensures forall i: nat :: BitAt(s[k..], i) == BitAt(s, i)
  {
    assert Val(s[k..]) == Val(s) by {
      var zeros, rest := s[..k], s[k..];
      assert s == zeros + rest;
      assert Val(zeros) == 0 by {
        ValZeroIffNoOnes(zeros);
      }
      ValConcat(zeros, rest);
      ZeroTimes(Val(zeros), Pow2(|rest|));
    }
    forall i: nat
      ensures BitAt(s[k..], i) == BitAt(s, i)
    {
      if i < |s| - k {
        assert s[k..][|s| - k - 1 - i] == s[|s| - 1 - i];
      } else if i < |s| {
        assert s[|s| - 1 - i] == '0';
      }
    }
  }

  lemma ZeroTimes(z: int, p: int)
    requires z == 0
    ensures z * p == 0
  {
  }
}
