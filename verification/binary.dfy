/** The `Binary` value type of the calculator: an unsigned number kept as a
    canonical digit string, with its constructor and its four operations. */
module BinaryCalculator {
  import opened Bits

  /** A `Binary` object. Its `number` field is what `getValue` returns. */
  datatype Binary = Binary(number: string) {
    /** The class invariant every constructed object satisfies. */
    predicate Valid() {
      Canonical(number)
    }
  }

  /** The field initialiser's value, which is also what invalid input leaves. */
  const Zero: Binary := Binary("0")

  // ---------------------------------------------------------------------------
  // Construction

  /** The leading-zero loop of the constructor: the first index at or after
      `beg` that does not hold '0', or |s| when there is none. */
  function FirstNonZero(s: string, beg: nat): (r: nat)
    requires beg <= |s|
    ensures beg <= r <= |s|
    ensures forall j :: beg <= j < r ==> s[j] == '0'
    ensures r < |s| ==> s[r] != '0'
    decreases |s| - beg
  {
    if beg == |s| || s[beg] != '0' then beg else FirstNonZero(s, beg + 1)
  }

  /** The constructor. On a character other than '0'/'1' the Java code
      overwrites only its parameter and returns, so the stored value is the
      field initialiser's "0". Otherwise leading zeros are stripped and an
      empty remainder becomes "0". */
  function Construct(raw: string): (r: Binary)
    ensures r.Valid()
    ensures !IsBinary(raw) ==> r == Zero
    ensures IsBinary(raw) ==> Val(r.number) == Val(raw)
    ensures Canonical(raw) ==> r.number == raw
  {
    if !IsBinary(raw) then Zero
    else
      var beg := FirstNonZero(raw, 0);
      var stripped := raw[beg..];
      LeadingZerosInvisible(raw, beg);
      if stripped == "" then Zero else Binary(stripped)
  }

  /** Stripping leading zeros keeps every bit. */
  lemma ConstructKeepsBits(raw: string)
    requires IsBinary(raw)
    ensures forall i: nat :: BitAt(Construct(raw).number, i) == BitAt(raw, i)
  {
    LeadingZerosInvisible(raw, FirstNonZero(raw, 0));
  }

  /** An empty or all-zero input is stored as "0". */
  lemma ConstructAllZeros(raw: string)
    requires forall j :: 0 <= j < |raw| ==> raw[j] == '0'
    ensures Construct(raw) == Zero
  {
    assert IsBinary(raw);
    assert FirstNonZero(raw, 0) == |raw|;
  }

  // ---------------------------------------------------------------------------
  // Padding

  /** A run of `n` '0' digits. */
  function Zeros(n: nat): (r: string)
    ensures |r| == n && forall j :: 0 <= j < n ==> r[j] == '0'
  {
    seq(n, _ => '0')
  }

  /** The helper `padWithZeros`: insert '0' at the front while the string is
      shorter than `length`. The result is `s` behind just enough zeros to
      reach `length`, and `s` itself when it is already that long. */
  function PadWithZeros(s: string, length: int): (r: string)
    ensures r == Zeros(Max(|s|, length) - |s|) + s
    decreases length - |s|
  {
    if |s| < length then
      assert Zeros(length - |s| - 1) + ("0" + s) == Zeros(length - |s|) + s;
      PadWithZeros("0" + s, length)
    else s
  }

  /** Padding keeps the value and every bit. */
  lemma PadWithZerosPreserves(s: string, length: int)
    ensures Val(PadWithZeros(s, length)) == Val(s)
    ensures forall i: nat :: BitAt(PadWithZeros(s, length), i) == BitAt(s, i)
  {
    var r := PadWithZeros(s, length);
    var z := Zeros(Max(|s|, length) - |s|);
    assert r[|z|..] == s;
    LeadingZerosInvisible(r, |z|);
  }

  // ---------------------------------------------------------------------------
  // Addition

  function Digit(d: nat): char {
    if d == 0 then '0' else '1'
  }

  /** One operand's part of a ripple step: its last unconsumed digit, or 0
      once its index has run below zero, and the digits still left after it. */
  function Consume(s: string): (r: (nat, string))
    ensures r.0 <= 1
    ensures |s| > 0 ==> |r.1| == |s| - 1
    ensures |s| == 0 ==> r.0 == 0 && r.1 == s
    ensures Val(s) == 2 * Val(r.1) + r.0
  {
    if |s| > 0 then (Bit(s[|s| - 1]), s[..|s| - 1]) else (0, s)
  }

  /** The ripple-carry loop of `add`. `x` and `y` are the digits not yet
      consumed (the loop's indices point at their last digits); the digits the
      loop still emits are prepended to what it has already built, so they
      come out in front of the recursive result's tail digit. */
  function Ripple(x: string, y: string, carry: nat): (r: string)
    requires carry <= 1
    ensures IsBinary(r)
    ensures Val(r) == Val(x) + Val(y) + carry
    decreases |x| + |y| + carry
  {
    if |x| == 0 && |y| == 0 && carry == 0 then ""
    else
      var (bitX, x') := Consume(x);
      var (bitY, y') := Consume(y);
      var sum := carry + bitX + bitY;
      var front := Ripple(x', y', sum / 2);
      var d := Digit(sum % 2);
      ValSnoc(front, d);
      IsBinarySnoc(front, d);
      RippleArithmetic(Val(x), Val(x'), bitX, Val(y), Val(y'), bitY, carry, Val(front), Bit(d));
      front + [d]
  }

  /** The arithmetic of one ripple step: the emitted digit and the new carry
      account for the two consumed digits and the old carry. */
  lemma RippleArithmetic(vx: int, vx': int, bitX: int, vy: int, vy': int, bitY: int,
                         carry: int, vfront: int, bd: int)
    requires vx == 2 * vx' + bitX && vy == 2 * vy' + bitY
    requires vfront == vx' + vy' + (carry + bitX + bitY) / 2
    requires bd == (carry + bitX + bitY) % 2
    ensures 2 * vfront + bd == vx + vy + carry
  {
  }

  /** `add`: run the ripple loop and pass its digits through the constructor. */
  function Add(a: Binary, b: Binary): (r: Binary)
    ensures r.Valid()
    ensures Val(r.number) == Val(a.number) + Val(b.number)
  {
    Construct(Ripple(a.number, b.number, 0))
  }

  // ---------------------------------------------------------------------------
  // Bitwise OR / AND

  datatype Gate = OrGate | AndGate

  function Apply(g: Gate, p: bool, q: bool): bool {
    match g
    case OrGate => p || q
    case AndGate => p && q
  }

  /** One output digit of `or` / `and` from two aligned input digits. */
  function Combine(g: Gate, c1: char, c2: char): char {
    match g
    case OrGate => if c1 == '1' || c2 == '1' then '1' else '0'
    case AndGate => if c1 == '1' && c2 == '1' then '1' else '0'
  }

  /** The shared body of `or` and `and`: pad both operands to the longer
      length, combine digit by digit, and canonicalise. */
  function Bitwise(g: Gate, a: Binary, b: Binary): (r: Binary)
    ensures r.Valid()
    ensures forall i: nat :: BitAt(r.number, i) == Apply(g, BitAt(a.number, i), BitAt(b.number, i))
  {
    var n := Max(|a.number|, |b.number|);
    var p1 := PadWithZeros(a.number, n);
    var p2 := PadWithZeros(b.number, n);
    PadWithZerosPreserves(a.number, n);
    PadWithZerosPreserves(b.number, n);
    var digits := CombineDigits(g, p1, p2);
    ConstructKeepsBits(digits);
    Construct(digits)
  }

  /** The loop over the padded operands: one combined digit per position. */
  function CombineDigits(g: Gate, p1: string, p2: string): (digits: string)
    requires |p1| == |p2|
    ensures IsBinary(digits)
    ensures forall i: nat :: BitAt(digits, i) == Apply(g, BitAt(p1, i), BitAt(p2, i))
  {
    var digits := seq(|p1|, k requires 0 <= k < |p1| => Combine(g, p1[k], p2[k]));
    BitwiseDigits(g, p1, p2, digits);
    digits
  }

  /** One combined digit is a digit, and it is '1' exactly when the gate
      holds of the two input digits. */
  lemma CombineBit(g: Gate, c1: char, c2: char)
    ensures IsDigit(Combine(g, c1, c2))
    ensures (Combine(g, c1, c2) == '1') == Apply(g, c1 == '1', c2 == '1')
  {
  }

  /** Combining two aligned digit strings position by position combines
      their bits with the gate. */
  lemma BitwiseDigits(g: Gate, p1: string, p2: string, digits: string)
    requires |p1| == |p2| == |digits|
    requires forall k :: 0 <= k < |digits| ==> digits[k] == Combine(g, p1[k], p2[k])
    ensures IsBinary(digits)
    ensures forall i: nat :: BitAt(digits, i) == Apply(g, BitAt(p1, i), BitAt(p2, i))
  {
    forall k | 0 <= k < |digits|
      ensures IsDigit(digits[k])
    {
      CombineBit(g, p1[k], p2[k]);
    }
    forall i: nat
      ensures BitAt(digits, i) == Apply(g, BitAt(p1, i), BitAt(p2, i))
    {
      if i < |digits| {
        var k := |digits| - 1 - i;
        CombineBit(g, p1[k], p2[k]);
      }
    }
  }

  /** `or`. */
  function Or(a: Binary, b: Binary): (r: Binary)
    ensures r.Valid()
    ensures forall i: nat :: BitAt(r.number, i) == (BitAt(a.number, i) || BitAt(b.number, i))
  {
    Bitwise(OrGate, a, b)
  }

  /** `and`. */
  function And(a: Binary, b: Binary): (r: Binary)
    ensures r.Valid()
    ensures forall i: nat :: BitAt(r.number, i) == (BitAt(a.number, i) && BitAt(b.number, i))
  {
    Bitwise(AndGate, a, b)
  }

  // ---------------------------------------------------------------------------
  // Multiplication, as written

  /** The working-string update of `multiply`: drop the last digit and append
      '0'. Meant as a left shift, it clears bit 0 and keeps the length. */
  function WorkingStep(current: string): (r: string)
    requires |current| > 0
    ensures |r| == |current| && r[|r| - 1] == '0'
    ensures IsBinary(current) ==> IsBinary(r)
    ensures Val(r) == Val(current) - Val(current) % 2
  {
    var r := current[..|current| - 1] + "0";
    assert r[..|r| - 1] == current[..|current| - 1];
    r
  }

  /** The working string after `i` iterations of the multiply loop, starting
      from the multiplicand `a`. */
  function Working(a: string, i: nat): (r: string)
    requires |a| > 0
    ensures |r| == |a|
    decreases i
  {
    if i == 0 then a else WorkingStep(Working(a, i - 1))
  }

  /** `v` with bit 0 cleared. */
  function Even(v: nat): nat {
    v - v % 2
  }

  /** The body of the multiply loop before the shift: a '1' digit of the
      multiplier adds the working value to the accumulator. */
  function Accumulate(result: Binary, current: string, digit: char): (r: Binary)
    requires IsBinary(current) && result.Valid()
    ensures r.Valid()
    ensures Val(r.number) == Val(result.number) + (if digit == '1' then Val(current) else 0)
  {
    if digit == '1' then Add(result, Construct(current)) else result
  }

  /** The multiply loop from iteration `i` on, with working string `current`
      and accumulator `result`. The ghost `a` is the multiplicand the loop
      started from, so `current` is its working string after `i` iterations. */
  function MultiplyFrom(ghost a: string, current: string, other: string, i: nat, result: Binary): (r: Binary)
    requires |a| > 0 && current == Working(a, i)
    requires IsBinary(current)
    requires i <= |other| && result.Valid()
    ensures r.Valid()
    ensures i == |other| ==> r == result
    ensures i < |other| ==>
              Val(r.number) == Val(result.number) + (if other[i] == '1' then Val(current) else 0)
                                + Scale(Ones(other[i + 1..]), Even(Val(current)))
    decreases |other| - i
  {
    if i == |other| then result
    else
      var next := Accumulate(result, current, other[i]);
      var w := WorkingStep(current);
      EvenIdempotent(Val(current));
      var r := MultiplyFrom(a, w, other, i + 1, next);
      var rest := other[i + 1..];
      if i + 1 < |other| then
        assert rest[0] == other[i + 1] && rest[1..] == other[i + 2..];
        OnesScaleStep(rest, Even(Val(current)));
        r
      else
        assert rest == [];
        r
  }

  /** Splitting the first digit off a run of digits: a '1' contributes one
      more copy of `e`. */
  lemma OnesScaleStep(rest: string, e: nat)
    requires |rest| > 0
    ensures Scale(Ones(rest), e) == (if rest[0] == '1' then e else 0) + Scale(Ones(rest[1..]), e)
  {
    var o := Ones(rest[1..]);
    if rest[0] == '1' {
      assert Ones(rest) == o + 1;
    } else {
      assert Ones(rest) == o;
    }
  }

  lemma EvenIdempotent(v: nat)
    ensures Even(Even(v)) == Even(v)
  {
  }

  /** `multiply`, as the code computes it: the first digit of `other` adds
      `a`, every later '1' digit adds `a` with bit 0 cleared. It is not the
      product. */
  function Multiply(a: Binary, b: Binary): (r: Binary)
    requires a.Valid()
    ensures r.Valid()
    ensures |b.number| == 0 ==> r == Zero
    ensures |b.number| > 0 ==>
              Val(r.number) == (if b.number[0] == '1' then Val(a.number) else 0)
                                + Scale(Ones(b.number[1..]), Even(Val(a.number)))
  {
    MultiplyFrom(a.number, a.number, b.number, 0, Zero)
  }

  // ---------------------------------------------------------------------------
  // Multiplication, corrected

  /** The shift-and-add loop the doc comment promises: read `other` from its
      least significant digit and double the working string at every
      position by appending '0'. */
  function ProductFrom(current: string, other: string, result: Binary): (r: Binary)
    requires IsBinary(current) && result.Valid()
    ensures r.Valid()
    ensures Val(r.number) == Val(result.number) + Val(current) * Val(other)
    decreases |other|
  {
    if |other| == 0 then result
    else
      var (bit, rest) := Consume(other);
      var next := Accumulate(result, current, if bit == 1 then '1' else '0');
      var shifted := current + ['0'];
      ValSnoc(current, '0');
      IsBinarySnoc(current, '0');
      var r := ProductFrom(shifted, rest, next);
      ProductArithmetic(Val(r.number), Val(next.number), Val(result.number), Val(current),
                        Val(shifted), Val(other), Val(rest), bit);
      r
  }

  /** The arithmetic of one corrected step: splitting off the multiplier's
      last digit, the doubled multiplicand covers the remaining digits and
      the last digit adds the multiplicand once or not at all. */
  lemma ProductArithmetic(vr: int, vn: int, vres: int, vc: int, vs: int, vo: int, vrest: int, bit: int)
    requires bit == 0 || bit == 1
    requires vr == vn + vs * vrest
    requires vn == vres + (if bit == 1 then vc else 0)
    requires vs == 2 * vc && vo == 2 * vrest + bit
    ensures vr == vres + vc * vo
  {
  }

  /** `multiply` with the shift repaired: the product of the operands. */
  function MultiplyCorrected(a: Binary, b: Binary): (r: Binary)
    requires a.Valid()
    ensures r.Valid()
    ensures Val(r.number) == Val(a.number) * Val(b.number)
  {
    ProductFrom(a.number, b.number, Zero)
  }
}
