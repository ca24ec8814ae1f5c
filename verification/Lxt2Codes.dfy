/**
 The code numbers of the LXT2 format and which of them the writer picks: the first in a certain order that
 turns the old value into the new one, but for a few it does not look at.
 */
module Lxt2Codes {
  import opened Wrappers
  import opened Arithmetic
  import opened Lxt2Codec

  // ---------------------------------------------------------------- the numbers

  /**
   0, 1, 15 and 16 stand for strings of 0, 1, x and z, 2 for inversion, 3 and 4 for a left shift of 0 or 1,
   5 and 6 for a right shift, 7 to 10 for adding and 11 to 14 for subtracting 1 to 4, and 18 and more for
   the words of the dictionary.
   */
  lemma CodeTable(base: string, dict: seq<string>)
    requires base != ""
    ensures Decode(0, base, dict) == Some(Fill(|base|, '0')) && Decode(1, base, dict) == Some(Fill(|base|, '1'))
    ensures Decode(15, base, dict) == Some(Fill(|base|, 'x')) && Decode(16, base, dict) == Some(Fill(|base|, 'z'))
    ensures Decode(2, base, dict) == if Binary(base) then Some(Flipped(base)) else None
    ensures Decode(3, base, dict) == Some(base[1..] + "0") && Decode(4, base, dict) == Some(base[1..] + "1")
    ensures Decode(5, base, dict) == Some("0" + base[..|base| - 1])
    ensures Decode(6, base, dict) == Some("1" + base[..|base| - 1])
    ensures Decode(17, base, dict) == None
  {
    hide Bits, Pad, Pow2, Number;
  }

  lemma IncrementTable(base: string, dict: seq<string>, k: nat)
    requires 1 <= k <= 4 && Binary(base)
    ensures Decode(6 + k, base, dict) == Some(Bits((Number(base) + k) % Pow2(|base|), |base|))
    ensures Decode(10 + k, base, dict) == Some(Bits((Number(base) - k) % Pow2(|base|), |base|))
  {
    hide Bits, Pad, Pow2, Number;
  }

  lemma WordTable(base: string, dict: seq<string>, k: nat)
    requires k < |dict| && dict[k] != ""
    ensures Decode(18 + k, base, dict) == Some(Pad(dict[k], |base|))
  {
    hide Bits, Pad, Pow2, Number;
  }

  // ---------------------------------------------------------------- the choice

  /** The codes in the order in which the writer tries them. */
  const ORDER: seq<nat> := [2, 3, 4, 5, 6, 7, 11, 8, 12, 9, 13, 10, 14, 0, 1, 15, 16]

  predicate Absolute(code: nat) {
    code == 0 || code == 1 || code == 15 || code == 16
  }

  /** What a code of the increments adds. */
  function Step(code: nat): int
    requires 7 <= code < 15
  {
    if code < 11 then code - 6 else 10 - code
  }

  /**
   What the writer does not look at: shifts and increments of a single bit; a right shift if the strings
   also look like a left shift; increments of more than 32 bits, increments by 4 of two bits, and, where
   shifting a negative number keeps its sign, increments that go round.
   */
  predicate Overlooked(old_: string, new_: string, signedShift: bool, code: nat)
    requires |old_| == |new_| > 0
  {
    var n := |new_|;
    || (3 <= code < 15 && n == 1)
    || (5 <= code < 7 && old_[1..] == new_[..n - 1])
    || (7 <= code < 15 && n > 32)
    || ((code == 10 || code == 14) && n == 2)
    || (7 <= code < 15 && signedShift && (Number(old_) + Step(code)) % TWO32 != Number(new_))
  }

  /** The code turns the old value into the new one, and the writer may use it. */
  predicate Usable(absolute: bool, old_: string, new_: string, signedShift: bool, code: nat)
    requires |old_| == |new_| > 0
  {
    && Decode(code, old_, []) == Some(new_) && (absolute ==> Absolute(code))
    && !Overlooked(old_, new_, signedShift, code)
  }

  lemma InverseIff(old_: string, new_: string)
    requires |old_| == |new_| > 0
    ensures Decode(2, old_, []) == Some(new_) <==> Inverse(old_, new_)
  {
    if Inverse(old_, new_) {
      assert Flipped(old_) == new_;
    } else if Binary(old_) && Flipped(old_) == new_ {
      forall i | 0 <= i < |new_| ensures IsBit(new_[i]) && old_[i] == Flip(new_[i]) {
        assert Flipped(old_)[i] == new_[i] && IsBit(old_[i]);
      }
    }
  }

  lemma LeftIff(old_: string, new_: string, code: nat)
    requires |old_| == |new_| > 0 && 3 <= code < 5
    ensures Decode(code, old_, []) == Some(new_) <==>
      old_[1..] == new_[..|new_| - 1] && new_[|new_| - 1] == (if code == 3 then '0' else '1')
  {
    assert new_ == new_[..|new_| - 1] + [new_[|new_| - 1]];
    var bit := if code == 3 then '0' else '1';
    var r := old_[1..] + [bit];
    assert r[..|r| - 1] == old_[1..] && r[|r| - 1] == bit;
  }

  lemma RightIff(old_: string, new_: string, code: nat)
    requires |old_| == |new_| > 0 && 5 <= code < 7
    ensures Decode(code, old_, []) == Some(new_) <==>
      old_[..|new_| - 1] == new_[1..] && new_[0] == (if code == 5 then '0' else '1')
  {
    assert new_ == [new_[0]] + new_[1..];
    var bit := if code == 5 then '0' else '1';
    var r := [bit] + old_[..|old_| - 1];
    assert r[1..] == old_[..|old_| - 1] && r[0] == bit;
  }

  lemma StepIff(old_: string, new_: string, signedShift: bool, code: nat)
    requires |old_| == |new_| > 0 && 7 <= code < 15 && |new_| <= 32
    ensures
      (Decode(code, old_, []) == Some(new_) &&
        (signedShift ==> (Number(old_) + Step(code)) % TWO32 == Number(new_)))
      <==>
      (Binary(old_) && Binary(new_) &&
        StepsBy(Number(old_), Number(new_), Step(code), MaskModulus(|new_|, signedShift)))
  {
    hide Bits, Pow2, Number, StepsBy, MaskModulus, Binary;
    var n, a, b, d := |new_|, Number(old_), Number(new_), Step(code);
    assert d == Increment(code);
    NumberBound(new_);
    StepNumbers(a, b, d, n, signedShift);
    if Binary(new_) {
      RoundTrip(new_, (a + d) % Pow2(n));
    } else {
      NotBinary(new_, (a + d) % Pow2(n));
    }
  }

  lemma StepNumbers(a: nat, b: nat, d: int, n: nat, signedShift: bool)
    requires n <= 32 && b < Pow2(n)
    ensures ((a + d) % Pow2(n) == b && (signedShift ==> (a + d) % TWO32 == b)) <==>
      StepsBy(a, b, d, MaskModulus(n, signedShift))
  {
    hide Pow2;
    Wrapping(a, d, n);
    SmallIs(b, n);
  }

  /** A binary string is the digits of a number exactly if it reads as that number. */
  lemma RoundTrip(s: string, x: nat)
    requires Binary(s) && x < Pow2(|s|)
    ensures Bits(x, |s|) == s <==> Number(s) == x
  {
    NumberOfBits(x, |s|);
    if Number(s) == x { NumberInjective(Bits(x, |s|), s); }
  }

  lemma NotBinary(s: string, x: nat)
    requires !Binary(s) && x < Pow2(|s|)
    ensures Bits(x, |s|) != s
  {
    NumberOfBits(x, |s|);
  }

  lemma Wrapping(a: nat, d: int, n: nat)
    requires n <= 32
    ensures (a + d) % TWO32 % Pow2(n) == (a + d) % Pow2(n)
  {
    hide Pow2;
    Pow2Splits(n, 32 - n);
    Pow2Of32();
    ModOfProduct(a + d, Pow2(n), Pow2(32 - n));
  }

  lemma SmallIs(b: nat, n: nat)
    requires b < Pow2(n) && n <= 32
    ensures b < TWO32 && b % Pow2(n) == b
  {
    hide Pow2;
    Pow2Splits(n, 32 - n);
    Pow2Of32();
    Mult(1, Pow2(32 - n), Pow2(n));
    ModUnique(b, Pow2(n), 0, b);
  }

  lemma UniformIff(new_: string, c: char)
    requires new_ != ""
    ensures Fill(|new_|, c) == new_ <==> RunEnd(new_, new_[0], 0) == |new_| && new_[0] == c
  {
    if RunEnd(new_, new_[0], 0) == |new_| && new_[0] == c { assert Fill(|new_|, c) == new_; }
  }

  /** The code is the first of these that is usable. */
  ghost predicate FirstUsable(absolute: bool, old_: string, new_: string, signedShift: bool, code: nat)
    requires |old_| == |new_| > 0
  {
    exists i :: 0 <= i < 17 && ORDER[i] == code && Usable(absolute, old_, new_, signedShift, code)
      && forall j :: 0 <= j < i ==> !Usable(absolute, old_, new_, signedShift, ORDER[j])
  }

  ghost predicate NoneUsable(absolute: bool, old_: string, new_: string, signedShift: bool)
    requires |old_| == |new_| > 0
  {
    forall j :: 0 <= j < 17 ==> !Usable(absolute, old_, new_, signedShift, ORDER[j])
  }

  /** Which codes are usable, in terms of the tests that the writer makes. */
  lemma UsableInverse(absolute: bool, old_: string, new_: string, signedShift: bool)
    requires |old_| == |new_| > 0
    ensures Usable(absolute, old_, new_, signedShift, 2) <==> !absolute && Inverse(old_, new_)
  {
    hide Decode, Number;
    InverseIff(old_, new_);
  }

  lemma UsableShift(absolute: bool, old_: string, new_: string, signedShift: bool, code: nat)
    requires |old_| == |new_| > 0 && 3 <= code < 7
    ensures Usable(absolute, old_, new_, signedShift, code) <==>
      !absolute && |new_| > 1 && ShiftChoice(old_, new_) == Some(code)
  {
    hide Decode, Number;
    if code < 5 { LeftIff(old_, new_, code); } else { RightIff(old_, new_, code); }
  }

  lemma UsableStep(absolute: bool, old_: string, new_: string, signedShift: bool, code: nat)
    requires |old_| == |new_| > 0 && 7 <= code < 15
    ensures Usable(absolute, old_, new_, signedShift, code) <==>
      && !absolute && 1 < |new_| <= 32 && Binary(old_) && Binary(new_) && (code == 10 || code == 14 ==> |new_| > 2)
      && StepsBy(Number(old_), Number(new_), Step(code), MaskModulus(|new_|, signedShift))
  {
    hide Decode, Number, StepsBy;
    if |new_| <= 32 { StepIff(old_, new_, signedShift, code); }
  }

  lemma UsableUniform(absolute: bool, old_: string, new_: string, signedShift: bool, code: nat)
    requires |old_| == |new_| > 0 && Absolute(code)
    ensures Usable(absolute, old_, new_, signedShift, code) <==> UniformChoice(new_) == Fixed(code)
  {
    hide Number, Bits;
    UniformIff(new_, '0');
    UniformIff(new_, '1');
    UniformIff(new_, 'x');
    UniformIff(new_, 'z');
  }

  /** The increments are tried in this order. */
  lemma StepOrder(a: nat, b: nat, n: nat, m: nat)
    requires m > 0 && n > 1
    ensures match StepChoice(a, b, n, m)
      case None => forall i :: 5 <= i < 13 && (i >= 11 ==> n > 2) ==> !StepsBy(a, b, Step(ORDER[i]), m)
      case Some(code) =>
        exists i :: 5 <= i < 13 && ORDER[i] == code && StepsBy(a, b, Step(code), m) && (i >= 11 ==> n > 2)
          && forall j :: 5 <= j < i ==> !StepsBy(a, b, Step(ORDER[j]), m)
  {
    hide StepsBy;
    assert ORDER[5] == 7 && ORDER[6] == 11 && ORDER[7] == 8 && ORDER[8] == 12 && ORDER[9] == 9 && ORDER[10] == 13;
    assert ORDER[11] == 10 && ORDER[12] == 14;
  }

  /**
   Main result: the code chosen is the first in the order that turns the old value into the new one and is
   not overlooked; a word goes to the dictionary exactly if there is none.
   */
  lemma ChooseIsFirst(absolute: bool, old_: string, new_: string, signedShift: bool)
    requires |old_| == |new_| > 0
    ensures match Choose(absolute, old_, new_, signedShift)
      case Fixed(code) => FirstUsable(absolute, old_, new_, signedShift, code)
      case InDictionary => NoneUsable(absolute, old_, new_, signedShift)
  {
    hide Usable, RelativeChoice, UniformChoice;
    if !absolute && RelativeChoice(old_, new_, signedShift).Some? {
      RelativeIsFirst(old_, new_, signedShift);
    } else {
      NoneRelative(absolute, old_, new_, signedShift);
      UniformIsFirst(absolute, old_, new_, signedShift);
    }
  }

  lemma Orders()
    ensures |ORDER| == 17 && ORDER[0] == 2 && ORDER[1] == 3 && ORDER[2] == 4 && ORDER[3] == 5 && ORDER[4] == 6
    ensures forall j :: 5 <= j < 13 ==> 7 <= ORDER[j] < 15 && (ORDER[j] == 10 || ORDER[j] == 14 <==> j >= 11)
    ensures ORDER[13] == 0 && ORDER[14] == 1 && ORDER[15] == 15 && ORDER[16] == 16
  {
  }

  lemma RelativeIsFirst(old_: string, new_: string, signedShift: bool)
    requires |old_| == |new_| > 0 && RelativeChoice(old_, new_, signedShift).Some?
    ensures FirstUsable(false, old_, new_, signedShift, RelativeChoice(old_, new_, signedShift).value)
  {
    hide Usable, FirstUsable, Inverse, StepChoice, ShiftChoice, Binary, Number, MaskModulus;
    if Inverse(old_, new_) {
      InverseIsFirst(old_, new_, signedShift);
    } else if ShiftChoice(old_, new_).Some? {
      ShiftIsFirst(old_, new_, signedShift);
    } else {
      StepIsFirst(old_, new_, signedShift);
    }
  }

  lemma InverseIsFirst(old_: string, new_: string, signedShift: bool)
    requires |old_| == |new_| > 0 && Inverse(old_, new_)
    ensures FirstUsable(false, old_, new_, signedShift, 2)
  {
    hide Usable, Inverse;
    UsableInverse(false, old_, new_, signedShift);
    assert ORDER[0] == 2;
  }

  lemma ShiftIsFirst(old_: string, new_: string, signedShift: bool)
    requires |old_| == |new_| > 1 && !Inverse(old_, new_) && ShiftChoice(old_, new_).Some?
    ensures FirstUsable(false, old_, new_, signedShift, ShiftChoice(old_, new_).value)
  {
    var code := ShiftChoice(old_, new_).value;
    ShiftRange(old_, new_);
    hide Usable, Inverse, ShiftChoice;
    UsableInverse(false, old_, new_, signedShift);
    forall k: nat | 3 <= k < 7 ensures Usable(false, old_, new_, signedShift, k) <==> code == k {
      UsableShift(false, old_, new_, signedShift, k);
    }
    var i := code - 2;
    ShiftsInOrder(i);
    forall j | 0 <= j < i ensures !Usable(false, old_, new_, signedShift, ORDER[j]) { ShiftsInOrder(j); }
  }

  lemma ShiftRange(old_: string, new_: string)
    requires |old_| == |new_| > 1 && ShiftChoice(old_, new_).Some?
    ensures 3 <= ShiftChoice(old_, new_).value < 7
  {
  }

  lemma ShiftsInOrder(i: nat)
    requires i < 5
    ensures ORDER[i] == i + 2
  {
  }

  lemma StepIsFirst(old_: string, new_: string, signedShift: bool)
    requires 1 < |old_| == |new_| <= 32 && !Inverse(old_, new_) && ShiftChoice(old_, new_).None?
    requires Binary(old_) && Binary(new_)
    requires StepChoice(Number(old_), Number(new_), |new_|, MaskModulus(|new_|, signedShift)).Some?
    ensures FirstUsable(false, old_, new_, signedShift,
      StepChoice(Number(old_), Number(new_), |new_|, MaskModulus(|new_|, signedShift)).value)
  {
    hide Usable, Inverse, StepsBy, StepChoice, ShiftChoice, Binary, Number, MaskModulus;
    var n, a, b, m := |new_|, Number(old_), Number(new_), MaskModulus(|new_|, signedShift);
    StepOrder(a, b, n, m);
    var code := StepChoice(a, b, n, m).value;
    var i :| 5 <= i < 13 && ORDER[i] == code && StepsBy(a, b, Step(code), m) && (i >= 11 ==> n > 2)
      && forall j :: 5 <= j < i ==> !StepsBy(a, b, Step(ORDER[j]), m);
    Orders();
    UsableStep(false, old_, new_, signedShift, code);
    forall j | 0 <= j < i ensures !Usable(false, old_, new_, signedShift, ORDER[j]) {
      if j == 0 {
        UsableInverse(false, old_, new_, signedShift);
      } else if j < 5 {
        UsableShift(false, old_, new_, signedShift, ORDER[j]);
      } else {
        UsableStep(false, old_, new_, signedShift, ORDER[j]);
      }
    }
  }

  lemma NoneRelative(absolute: bool, old_: string, new_: string, signedShift: bool)
    requires |old_| == |new_| > 0 && (absolute || RelativeChoice(old_, new_, signedShift).None?)
    ensures forall j :: 0 <= j < 13 ==> !Usable(absolute, old_, new_, signedShift, ORDER[j])
  {
    hide Usable, Inverse, StepsBy, StepChoice, ShiftChoice, Binary, Number, MaskModulus;
    Orders();
    var n, a, b, m := |new_|, Number(old_), Number(new_), MaskModulus(|new_|, signedShift);
    if n > 1 { StepOrder(a, b, n, m); }
    forall j | 0 <= j < 13 ensures !Usable(absolute, old_, new_, signedShift, ORDER[j]) {
      if j == 0 {
        UsableInverse(absolute, old_, new_, signedShift);
      } else if j < 5 {
        UsableShift(absolute, old_, new_, signedShift, ORDER[j]);
      } else {
        UsableStep(absolute, old_, new_, signedShift, ORDER[j]);
      }
    }
  }

  lemma UniformIsFirst(absolute: bool, old_: string, new_: string, signedShift: bool)
    requires |old_| == |new_| > 0
    requires forall j :: 0 <= j < 13 ==> !Usable(absolute, old_, new_, signedShift, ORDER[j])
    ensures match UniformChoice(new_)
      case Fixed(code) => FirstUsable(absolute, old_, new_, signedShift, code)
      case InDictionary => NoneUsable(absolute, old_, new_, signedShift)
  {
    hide Usable;
    Orders();
    forall j | 13 <= j < 17
      ensures Usable(absolute, old_, new_, signedShift, ORDER[j]) <==> UniformChoice(new_) == Fixed(ORDER[j])
    {
      UsableUniform(absolute, old_, new_, signedShift, ORDER[j]);
    }
    assert UniformChoice(new_).Fixed? ==>
      exists j :: 13 <= j < 17 && ORDER[j] == UniformChoice(new_).code;
  }
}
