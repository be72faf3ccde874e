# Binary calculator: a verified model of `Binary`

The calculator stores an unsigned integer as a string of '0'/'1' digits,
most significant digit first. The `Binary` class has a validating and
canonicalising constructor, the accessor `getValue`, and the operations
`add`, `or`, `and` and `multiply`, with the private helper
`padWithZeros`. This project models that class in Dafny and proves what each
operation computes in terms of the number a digit string denotes.

Modules:

- `Bits` (bits.dfy): digit strings and their meaning. `Val` is the
  abstraction function, the number a string denotes, with every character
  other than '1' weighing 0, as the Java loops read digits. `BitAt(s, i)`
  is bit `i` counted from the right, with positions past the string reading
  as 0. `Canonical` is the class invariant: non-empty, digits only, and no
  leading '0' unless the value is "0". Its lemmas show that a canonical
  string is determined by its value and also by its bits, and that leading
  zeros change neither.
- `BinaryCalculator` (binary.dfy): the class. `Binary` is an immutable
  datatype whose `number` field is what `getValue` returns. The
  constructor's validation loop is the predicate `IsBinary`, and the `or`/`and`
  loops are the sequence built in `CombineDigits`. The other four loops are
  recursive functions:
  - `FirstNonZero` is the constructor's leading-zero scan;
  - `Ripple` is the carry loop of `add`;
  - `PadWithZeros` is the insert loop;
  - `MultiplyFrom` is the loop of `multiply`.
  `MultiplyCorrected` is the shift-and-add product that `multiply`'s
  documentation promises.
- `BinaryLaws` (laws.dfy): laws relating several calls, such as
  commutativity, associativity, identities, idempotence and uniqueness, plus
  the results on small concrete inputs.

The doc comment of `multiply` (Binary.java line 135) promises
`this * other`; the code computes something else, and the model follows the
code (see Findings):

- `multiply("11", "10")` is "11", not "110".
- `multiply("1", b)` is not `b` in general; for example, "1" times "10" is "1".

The results of `or` and `and` pass through the constructor, which strips
leading zeros, so `and("101", "011")` is "1".

## Model

| member | source | states |
|---|---|---|
| BinaryCalculator.Construct | Projects_root/BinaryCalculator/src/main/java/com/ontariotechu/sofe3980U/Binary.java:17-40 | The stored value is canonical. Input with a character other than '0'/'1' stores "0". Otherwise the stored string denotes the same number as the input, and a canonical input is stored unchanged. |
| BinaryCalculator.FirstNonZero | Projects_root/BinaryCalculator/src/main/java/com/ontariotechu/sofe3980U/Binary.java:27-31 | The scan stops at the first digit that is not '0', or at the end of the string; every digit it passes is '0'. |
| BinaryCalculator.ConstructKeepsBits | Projects_root/BinaryCalculator/src/main/java/com/ontariotechu/sofe3980U/Binary.java:26-33 | Stripping leading zeros keeps every bit of a digit string. |
| BinaryCalculator.ConstructAllZeros | Projects_root/BinaryCalculator/src/main/java/com/ontariotechu/sofe3980U/Binary.java:27-38 | An empty or all-zero input is stored as "0". |
| BinaryLaws.ConstructIdempotent | Projects_root/BinaryCalculator/src/main/java/com/ontariotechu/sofe3980U/Binary.java:17-40 | Constructing from an already stored value gives that value back. |
| BinaryLaws.ConstructExamples | Projects_root/BinaryCalculator/src/main/java/com/ontariotechu/sofe3980U/Binary.java:17-40 | "000101" is stored as "101"; "", "000" and "12a" are stored as "0"; "1" is kept. |
| BinaryCalculator.PadWithZeros | Projects_root/BinaryCalculator/src/main/java/com/ontariotechu/sofe3980U/Binary.java:160-166 | The result is `s` behind exactly max(\|s\|, length) - \|s\| '0' digits: `s` itself when it is already long enough, otherwise zeros up to `length`. |
| BinaryCalculator.PadWithZerosPreserves | Projects_root/BinaryCalculator/src/main/java/com/ontariotechu/sofe3980U/Binary.java:160-166 | Padding keeps the denoted number and every bit. |
| BinaryCalculator.Consume | Projects_root/BinaryCalculator/src/main/java/com/ontariotechu/sofe3980U/Binary.java:69-76 | Taking one operand's next digit: it is 0 or 1, and twice the rest plus the digit is the operand's value; an exhausted operand contributes 0. |
| BinaryCalculator.Ripple | Projects_root/BinaryCalculator/src/main/java/com/ontariotechu/sofe3980U/Binary.java:61-80 | The carry loop emits a digit string whose value is the sum of both operands and the incoming carry. |
| BinaryCalculator.Add | Projects_root/BinaryCalculator/src/main/java/com/ontariotechu/sofe3980U/Binary.java:59-83 | The sum is canonical and denotes the sum of the operands' values. |
| BinaryLaws.AddCommutative | Projects_root/BinaryCalculator/src/main/java/com/ontariotechu/sofe3980U/Binary.java:59-83 | add(a, b) == add(b, a). |
| BinaryLaws.AddAssociative | Projects_root/BinaryCalculator/src/main/java/com/ontariotechu/sofe3980U/Binary.java:59-83 | add(add(a, b), c) == add(a, add(b, c)). |
| BinaryLaws.AddZeroIdentity | Projects_root/BinaryCalculator/src/main/java/com/ontariotechu/sofe3980U/Binary.java:59-83 | Adding "0" to a constructed value returns that value. |
| BinaryLaws.AddGives | Projects_root/BinaryCalculator/src/main/java/com/ontariotechu/sofe3980U/Binary.java:59-83 | The sum is the one canonical string whose value is the sum of the operands' values. |
| BinaryLaws.AddExample | Projects_root/BinaryCalculator/src/main/java/com/ontariotechu/sofe3980U/Binary.java:59-83 | "11" + "1" is "100". |
| BinaryLaws.AddCarriesOut | Projects_root/BinaryCalculator/src/main/java/com/ontariotechu/sofe3980U/Binary.java:66-81 | "111" + "1" is "1000": the final carry produces a digit beyond both operands. |
| BinaryCalculator.BitwiseDigits | Projects_root/BinaryCalculator/src/main/java/com/ontariotechu/sofe3980U/Binary.java:99-103 | Combining two equal-length digit strings position by position yields digits whose bits are the gate applied to the input bits (also lines 122-126 for `and`). |
| BinaryCalculator.CombineBit | Projects_root/BinaryCalculator/src/main/java/com/ontariotechu/sofe3980U/Binary.java:102 | One combined character is a digit, and it is '1' exactly when the gate holds of the two inputs being '1' (also line 125 for `and`). |
| BinaryCalculator.CombineDigits | Projects_root/BinaryCalculator/src/main/java/com/ontariotechu/sofe3980U/Binary.java:99-103 | The loop over two equal-length padded operands yields a digit string whose every bit is the gate applied to the operands' bits (also lines 122-126 for `and`). |
| BinaryCalculator.Bitwise | Projects_root/BinaryCalculator/src/main/java/com/ontariotechu/sofe3980U/Binary.java:91-129 | The right-aligned gate: the result is canonical and every bit is the gate applied to the operands' bits at that position. |
| BinaryCalculator.Or | Projects_root/BinaryCalculator/src/main/java/com/ontariotechu/sofe3980U/Binary.java:91-106 | The result is canonical, and bit i is set iff bit i of either operand is set. |
| BinaryCalculator.And | Projects_root/BinaryCalculator/src/main/java/com/ontariotechu/sofe3980U/Binary.java:114-129 | The result is canonical, and bit i is set iff bit i of both operands is set. |
| BinaryLaws.OrIdempotent | Projects_root/BinaryCalculator/src/main/java/com/ontariotechu/sofe3980U/Binary.java:91-106 | or(a, a) == a. |
| BinaryLaws.AndIdempotent | Projects_root/BinaryCalculator/src/main/java/com/ontariotechu/sofe3980U/Binary.java:114-129 | and(a, a) == a. |
| BinaryLaws.OrCommutative | Projects_root/BinaryCalculator/src/main/java/com/ontariotechu/sofe3980U/Binary.java:91-106 | or(a, b) == or(b, a). |
| BinaryLaws.AndCommutative | Projects_root/BinaryCalculator/src/main/java/com/ontariotechu/sofe3980U/Binary.java:114-129 | and(a, b) == and(b, a). |
| BinaryLaws.OrAssociative | Projects_root/BinaryCalculator/src/main/java/com/ontariotechu/sofe3980U/Binary.java:91-106 | or(or(a, b), c) == or(a, or(b, c)). |
| BinaryLaws.AndAssociative | Projects_root/BinaryCalculator/src/main/java/com/ontariotechu/sofe3980U/Binary.java:114-129 | and(and(a, b), c) == and(a, and(b, c)). |
| BinaryLaws.Absorption | Projects_root/BinaryCalculator/src/main/java/com/ontariotechu/sofe3980U/Binary.java:91-129 | or(a, and(a, b)) == a and and(a, or(a, b)) == a. |
| BinaryLaws.OrZeroIdentity | Projects_root/BinaryCalculator/src/main/java/com/ontariotechu/sofe3980U/Binary.java:91-106 | or(a, "0") == a. |
| BinaryLaws.AndZeroAbsorbs | Projects_root/BinaryCalculator/src/main/java/com/ontariotechu/sofe3980U/Binary.java:114-129 | and(a, "0") == "0" for every operand. |
| BinaryLaws.OrExample | Projects_root/BinaryCalculator/src/main/java/com/ontariotechu/sofe3980U/Binary.java:91-106 | For operands holding "101" and "011", or gives "111". |
| BinaryLaws.AndExample | Projects_root/BinaryCalculator/src/main/java/com/ontariotechu/sofe3980U/Binary.java:114-129 | For operands holding "101" and "011", and gives "1": the leading zeros of the combined digits are stripped. |
| BinaryCalculator.Working | Projects_root/BinaryCalculator/src/main/java/com/ontariotechu/sofe3980U/Binary.java:139-146 | The working string after i iterations, starting from the multiplicand; its length stays that of the multiplicand. |
| BinaryCalculator.WorkingStep | Projects_root/BinaryCalculator/src/main/java/com/ontariotechu/sofe3980U/Binary.java:146 | The working-string update keeps the length, leaves '0' as the last digit, keeps the string binary, and clears bit 0 of its value instead of doubling it. |
| BinaryLaws.WorkingStepIdempotent | Projects_root/BinaryCalculator/src/main/java/com/ontariotechu/sofe3980U/Binary.java:146 | A second update changes nothing. |
| BinaryLaws.MultiplyWorkingString | Projects_root/BinaryCalculator/src/main/java/com/ontariotechu/sofe3980U/Binary.java:141-147 | From the first iteration on, the working string `MultiplyFrom` carries (`Working(a, i)`) is the multiplicand with its last digit set to '0', of unchanged length. |
| BinaryCalculator.Accumulate | Projects_root/BinaryCalculator/src/main/java/com/ontariotechu/sofe3980U/Binary.java:143-145 | A '1' digit of the multiplier adds the working value to the accumulator; any other digit leaves it. |
| BinaryCalculator.MultiplyFrom | Projects_root/BinaryCalculator/src/main/java/com/ontariotechu/sofe3980U/Binary.java:141-147 | Called with the working string of iteration i (`Working(a, i)` for the multiplicand `a`), the remaining iterations give the accumulator, plus the working value if digit i is '1', plus the even part of the working value once for every later '1'. |
| BinaryCalculator.Multiply | Projects_root/BinaryCalculator/src/main/java/com/ontariotechu/sofe3980U/Binary.java:137-150 | The result is canonical. For an empty multiplier it is "0". Otherwise its value is the multiplicand if the first digit is '1', plus the multiplicand with bit 0 cleared for every later '1'. |
| BinaryLaws.MultiplyValue | Projects_root/BinaryCalculator/src/main/java/com/ontariotechu/sofe3980U/Binary.java:137-150 | For a non-zero multiplier, Val(result) == Val(a) + k * (Val(a) - Val(a) % 2), where k is the number of '1' digits after the first. |
| BinaryLaws.MultiplyGives | Projects_root/BinaryCalculator/src/main/java/com/ontariotechu/sofe3980U/Binary.java:137-150 | The result is the one canonical string with the value `MultiplyValue` gives. |
| BinaryLaws.MultiplyByZero | Projects_root/BinaryCalculator/src/main/java/com/ontariotechu/sofe3980U/Binary.java:137-150 | multiply(a, "0") == "0". |
| BinaryLaws.MultiplyByOne | Projects_root/BinaryCalculator/src/main/java/com/ontariotechu/sofe3980U/Binary.java:137-150 | multiply(a, "1") == a. |
| BinaryLaws.MultiplyIsNotProduct | Projects_root/BinaryCalculator/src/main/java/com/ontariotechu/sofe3980U/Binary.java:131-150 | 3 times 2 is 6, but multiply("11", "10") is "11". |
| BinaryLaws.MultiplyThreeByThree | Projects_root/BinaryCalculator/src/main/java/com/ontariotechu/sofe3980U/Binary.java:137-150 | multiply("11", "11") is "101" (5, not 9). |
| BinaryLaws.MultiplyOneByTwo | Projects_root/BinaryCalculator/src/main/java/com/ontariotechu/sofe3980U/Binary.java:137-150 | multiply("1", "10") is "1": "1" times a multiplier is not that multiplier. |
| BinaryLaws.MultiplyTwoByThree | Projects_root/BinaryCalculator/src/main/java/com/ontariotechu/sofe3980U/Binary.java:137-150 | multiply("10", "11") is "100"; together with `MultiplyIsNotProduct` (the swapped operands give "11") this shows the order matters. |
| BinaryCalculator.ProductFrom | Projects_root/BinaryCalculator/src/main/java/com/ontariotechu/sofe3980U/Binary.java:141-147 | The repaired loop reads the multiplier from its least significant digit and doubles the working string at each step. It adds the working value times the multiplier's value to the accumulator. |
| BinaryCalculator.MultiplyCorrected | Projects_root/BinaryCalculator/src/main/java/com/ontariotechu/sofe3980U/Binary.java:131-150 | The repaired `multiply` is canonical and denotes the product of the operands' values, as its documentation promises. |
| BinaryLaws.MultiplyCorrectedGives | Projects_root/BinaryCalculator/src/main/java/com/ontariotechu/sofe3980U/Binary.java:131-150 | The repaired product is the one canonical string with the product's value. |
| BinaryLaws.MultiplyCorrectedCommutative | Projects_root/BinaryCalculator/src/main/java/com/ontariotechu/sofe3980U/Binary.java:131-150 | The repaired product does not depend on the order of its operands. |
| BinaryLaws.MultiplyCorrectedExamples | Projects_root/BinaryCalculator/src/main/java/com/ontariotechu/sofe3980U/Binary.java:131-150 | The repaired multiply gives "110" for "11" times "10". |
| Bits.CanonicalValUnique | Projects_root/BinaryCalculator/src/main/java/com/ontariotechu/sofe3980U/Binary.java:27-38 | Two canonical strings with the same value are equal, so a stored value is determined by the number it denotes. |
| Bits.CanonicalBitsUnique | Projects_root/BinaryCalculator/src/main/java/com/ontariotechu/sofe3980U/Binary.java:27-38 | Two canonical strings with the same bits are equal. |
| Bits.LeadingZerosInvisible | Projects_root/BinaryCalculator/src/main/java/com/ontariotechu/sofe3980U/Binary.java:27-33 | Removing leading '0' digits keeps the value and every bit. |
| Bits.ValZeroIffNoOnes | Projects_root/BinaryCalculator/src/main/java/com/ontariotechu/sofe3980U/Binary.java:27-38 | A digit string denotes zero exactly when it contains no '1'. |

## Left out

- Object identity, `StringBuilder` buffers and string allocation. Operations are pure functions on an immutable datatype, and `or`/`and`/`multiply` take the receiver as their first argument.
- `getValue` (lines 47-49) is the datatype's `number` field and has no member of its own.
- Java's 32-bit `int` indices and lengths are unbounded here. Strings near Java's length limit (2^31 - 1 characters) are not modelled; there, `add`'s concatenation at line 79 would throw `OutOfMemoryError`, where `Add` returns a value.
- Null arguments are not modelled; the Java code would throw on them.
- `Multiply` requires a constructed multiplicand (`a.Valid()`). The working-string update at line 146 takes `substring(0, length - 1)`, which needs a non-empty string. Every constructed `Binary` satisfies this.
- The constructor's doc comment says "trailing zeros" where the code removes leading zeros. `multiply`'s doc comment promises `this * other`, which the code does not compute (see Findings). The model follows the code.

## Findings

| source | as written | input that shows it | evidently intended | confidence | as-written member | corrected member |
|---|---|---|---|---|---|---|
| Projects_root/BinaryCalculator/src/main/java/com/ontariotechu/sofe3980U/Binary.java:141-146 | The multiplier is scanned from its most significant digit. The working string is updated by replacing its last digit with '0', which clears bit 0 instead of doubling. | multiply("11", "10") gives "11" (3) instead of "110" (6) | Shift-and-add: the result denotes Val(this) * Val(other) | high; not executed | BinaryLaws.MultiplyIsNotProduct | BinaryCalculator.MultiplyCorrected |
