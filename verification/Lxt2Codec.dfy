/**
 How the LXT2 writer codes one value change, and how a reader undoes it.

 A change is coded against the value the symbol had before: inverted, shifted by one, or a small
 increment; otherwise it is a uniform string, or a word of the section's dictionary.
 */
module Lxt2Codec {
  import opened Wrappers
  import opened Arithmetic

  // ---------------------------------------------------------------- code numbers

  const ENC_0: nat := 0
  const ENC_1: nat := 1
  const ENC_INV: nat := 2
  const ENC_LSH0: nat := 3
  const ENC_RSH0: nat := 5
  const ENC_ADD1: nat := 7
  const ENC_SUB1: nat := 11
  const ENC_X: nat := 15
  const ENC_Z: nat := 16
  const DICT_START: nat := 18

  const TWO32: nat := 0x1_0000_0000

  // ---------------------------------------------------------------- bit strings and numbers

  predicate IsBit(c: char) { c == '0' || c == '1' }

  predicate Binary(s: string) { forall i :: 0 <= i < |s| ==> IsBit(s[i]) }

  function Flip(c: char): char { if c == '0' then '1' else if c == '1' then '0' else c }

  function Flipped(s: string): (r: string)
    ensures |r| == |s| && forall i :: 0 <= i < |s| ==> r[i] == Flip(s[i])
  {
    seq(|s|, i requires 0 <= i < |s| => Flip(s[i]))
  }

  function Fill(n: nat, c: char): (r: string)
    ensures |r| == n && forall i :: 0 <= i < n ==> r[i] == c
  {
    seq(n, _ => c)
  }

  function BitOf(c: char): nat { if c == '1' then 1 else 0 }

  /** The unsigned number a bit string denotes, most significant bit first. */
  function Number(s: string): nat {
    if s == "" then 0 else 2 * Number(s[..|s| - 1]) + BitOf(s[|s| - 1])
  }

  /** The `n` low bits of `x`. */
  function Bits(x: nat, n: nat): (s: string)
    ensures |s| == n
  {
    if n == 0 then "" else Bits(x / 2, n - 1) + [if x % 2 == 1 then '1' else '0']
  }

  lemma {:induction false} NumberBound(s: string)
    ensures Number(s) < Pow2(|s|)
  {
    if s != "" { NumberBound(s[..|s| - 1]); }
  }

  lemma {:induction false} BitsOfNumber(s: string)
    requires Binary(s)
    ensures Bits(Number(s), |s|) == s
  {
    if s != "" {
      var hd, c := s[..|s| - 1], s[|s| - 1];
      BitsOfNumber(hd);
      assert s == hd + [c];
    }
  }

  lemma {:induction false} NumberInjective(s: string, t: string)
    requires Binary(s) && Binary(t) && |s| == |t| && Number(s) == Number(t)
    ensures s == t
  {
    BitsOfNumber(s);
    BitsOfNumber(t);
  }

  lemma SameResidue(x: int, y: int, p: int)
    requires p > 0 && x % p == y % p && -p < x - y < p
    ensures x == y
  {
    var d, e := x / p, y / p;
    assert x == p * d + x % p && y == p * e + y % p;
    assert x - y == p * (d - e);
    if d != e { MultipleIsFar(p, d - e); }
  }

  // ---------------------------------------------------------------- truncation and padding

  /** The reader widens a dictionary word on the left by its first character, or by 0 after a 1. */
  function Pad(w: string, n: nat): (r: string)
    requires w != ""
    ensures |w| <= n ==> |r| == n
  {
    if |w| >= n then w else Fill(n - |w|, if w[0] == '1' then '0' else w[0]) + w
  }

  /** From `i` on, the first place where the character differs from `c`, or the end. */
  function RunEnd(v: string, c: char, i: nat): (k: nat)
    requires i <= |v|
    ensures i <= k <= |v|
    ensures forall j :: i <= j < k ==> v[j] == c
    ensures k < |v| ==> v[k] != c
    decreases |v| - i
  {
    if i == |v| || v[i] != c then i else RunEnd(v, c, i + 1)
  }

  /** Where the dictionary word of `v` begins. */
  function WordStart(v: string): (k: nat)
    requires v != ""
    ensures k < |v|
  {
    if v[0] == '1' then 0
    else
      var e := RunEnd(v, v[0], 0);
      if e < |v| && v[0] == '0' && v[e] == '1' then e else e - 1
  }

  function Word(v: string): (w: string)
    requires v != ""
    ensures w != "" && |w| <= |v|
  {
    v[WordStart(v)..]
  }

  /** Truncation loses nothing. */
  lemma PadUndoesTruncation(v: string)
    requires v != ""
    ensures Pad(Word(v), |v|) == v
  {
    var k := WordStart(v);
    if v[0] != '1' {
      var e := RunEnd(v, v[0], 0);
      assert v == v[..k] + v[k..];
      assert v[..k] == Fill(k, v[0]);
    }
  }

  /** And nothing shorter would do: the word is the shortest suffix that pads back to the value. */
  lemma WordIsShortest(v: string, j: nat)
    requires v != "" && WordStart(v) < j < |v|
    ensures Pad(v[j..], |v|) != v
  {
    var k, w := WordStart(v), v[j..];
    var padded := Pad(w, |v|);
    var fill := if w[0] == '1' then '0' else w[0];
    assert padded[0] == fill && padded[j - 1] == fill;
    if v[0] == '1' {
      assert fill != '1' ==> padded[0] != v[0];
    } else {
      var e := RunEnd(v, v[0], 0);
      assert e < |v| && v[e] != v[0];
      if v[0] == '0' && v[e] == '1' {
        assert j - 1 >= e && (j - 1 == e ==> v[j - 1] == '1');
        assert padded[e] == fill;
      } else if j == e {
        assert w[0] == v[e];
      } else {
        assert padded[e] == fill;
      }
    }
  }

  method TruncateBitvec(v: string) returns (k: nat)
    requires v != ""
    ensures k == WordStart(v)
  {
    var r := v[0];
    if r == '1' { return 0; }
    var s := 1;
    while true
      invariant 1 <= s <= |v|
      invariant r == v[0] && RunEnd(v, v[0], 0) == RunEnd(v, v[0], s)
      decreases |v| - s
    {
      var l := r;
      if s == |v| { return s - 1; }
      r := v[s];
      if l != r { return if l == '0' && r == '1' then s else s - 1; }
      s := s + 1;
    }
  }

  // ---------------------------------------------------------------- the choice of a code

  /** What the writer settles on: a fixed code, or a word for the dictionary. */
  datatype Choice = Fixed(code: nat) | InDictionary

  predicate Inverse(old_: string, new_: string)
    requires |old_| == |new_|
  {
    Binary(new_) && forall i :: 0 <= i < |new_| ==> old_[i] == Flip(new_[i])
  }

  /** Uniform strings of the four common characters have codes of their own. */
  function UniformChoice(v: string): Choice
    requires v != ""
  {
    if RunEnd(v, v[0], 0) < |v| then InDictionary
    else match v[0]
      case '0' => Fixed(ENC_0)
      case '1' => Fixed(ENC_1)
      case 'x' => Fixed(ENC_X)
      case 'z' => Fixed(ENC_Z)
      case _ => InDictionary
  }

  /** The modulus of line 1935's mask: the shift of a negative number may keep all 32 bits. */
  function MaskModulus(n: nat, signedShift: bool): (m: nat)
    ensures m > 0
  {
    if signedShift then TWO32 else Pow2(n)
  }

  predicate StepsBy(a: nat, b: nat, d: int, m: nat)
    requires m > 0
  {
    (a + d) % TWO32 % m == b
  }

  /** The increment tests, in source order. */
  function StepChoice(a: nat, b: nat, n: nat, m: nat): Option<nat>
    requires m > 0
  {
    if StepsBy(a, b, 1, m) then Some(ENC_ADD1)
    else if StepsBy(a, b, -1, m) then Some(ENC_SUB1)
    else if StepsBy(a, b, 2, m) then Some(ENC_ADD1 + 1)
    else if StepsBy(a, b, -2, m) then Some(ENC_SUB1 + 1)
    else if StepsBy(a, b, 3, m) then Some(ENC_ADD1 + 2)
    else if StepsBy(a, b, -3, m) then Some(ENC_SUB1 + 2)
    else if n > 2 && StepsBy(a, b, 4, m) then Some(ENC_ADD1 + 3)
    else if n > 2 && StepsBy(a, b, -4, m) then Some(ENC_SUB1 + 3)
    else None
  }

  function ShiftChoice(old_: string, new_: string): Option<nat>
    requires |old_| == |new_| > 1
  {
    var n := |new_|;
    if old_[1..] == new_[..n - 1] then
      if IsBit(new_[n - 1]) then Some(ENC_LSH0 + BitOf(new_[n - 1])) else None
    else if old_[..n - 1] == new_[1..] && IsBit(new_[0]) then Some(ENC_RSH0 + BitOf(new_[0]))
    else None
  }

  function RelativeChoice(old_: string, new_: string, signedShift: bool): Option<nat>
    requires |old_| == |new_| > 0
  {
    var n := |new_|;
    if Inverse(old_, new_) then Some(ENC_INV)
    else if n == 1 then None
    else if ShiftChoice(old_, new_).Some? then ShiftChoice(old_, new_)
    else if n <= 32 && Binary(old_) && Binary(new_) then
      StepChoice(Number(old_), Number(new_), n, MaskModulus(n, signedShift))
    else None
  }

  /** The whole choice. At a section's first time position nothing is coded relatively. */
  function Choose(absolute: bool, old_: string, new_: string, signedShift: bool): Choice
    requires |old_| == |new_| > 0
  {
    if !absolute && RelativeChoice(old_, new_, signedShift).Some? then
      Fixed(RelativeChoice(old_, new_, signedShift).value)
    else UniformChoice(new_)
  }

  /** The scan for a uniform string: `prevch` stays the common character or is dropped. */
  method ScanUniform(v: string) returns (c: Choice)
    requires v != ""
    ensures c == UniformChoice(v)
  {
    var prevch := v[0];
    var p := 0;
    while p < |v|
      invariant p <= |v| && RunEnd(v, prevch, 0) == RunEnd(v, prevch, p)
    {
      if prevch != v[p] { return InDictionary; }
      p := p + 1;
    }
    match prevch
    case '0' => c := Fixed(ENC_0);
    case '1' => c := Fixed(ENC_1);
    case 'x' => c := Fixed(ENC_X);
    case 'z' => c := Fixed(ENC_Z);
    case _ => c := InDictionary;
  }

  method ScanInverse(old_: string, new_: string) returns (inverse: bool)
    requires |old_| == |new_|
    ensures inverse == Inverse(old_, new_)
  {
    for i := 0 to |new_|
      invariant forall j :: 0 <= j < i ==> IsBit(new_[j]) && old_[j] == Flip(new_[j])
    {
      match new_[i]
      case '0' => if old_[i] != '1' { return false; }
      case '1' => if old_[i] != '0' { return false; }
      case _ => return false;
    }
    inverse := true;
  }

  /** Both strings read as numbers, unless a character of either is no bit. */
  method ScanNumbers(old_: string, new_: string) returns (numbers: Option<(nat, nat)>)
    requires |old_| == |new_|
    ensures numbers == if Binary(old_) && Binary(new_) then Some((Number(old_), Number(new_))) else None
  {
    var a, b := 0, 0;
    for i := 0 to |new_|
      invariant Binary(old_[..i]) && Binary(new_[..i])
      invariant a == Number(old_[..i]) && b == Number(new_[..i])
    {
      if !IsBit(new_[i]) || !IsBit(old_[i]) { return None; }
      assert old_[..i + 1][..i] == old_[..i] && new_[..i + 1][..i] == new_[..i];
      b := 2 * b + BitOf(new_[i]);
      a := 2 * a + BitOf(old_[i]);
    }
    assert old_[..|new_|] == old_ && new_[..|new_|] == new_;
    numbers := Some((a, b));
  }

  /** The writer's decision procedure computes the choice. */
  method EncodeChange(absolute: bool, old_: string, new_: string, signedShift: bool) returns (c: Choice)
    requires |old_| == |new_| > 0
    ensures c == Choose(absolute, old_, new_, signedShift)
  {
    c := ScanUniform(new_);
    if absolute { return; }
    var n := |new_|;
    var inverse := ScanInverse(old_, new_);
    if inverse { return Fixed(ENC_INV); }
    if n > 1 {
      if old_[1..] == new_[..n - 1] {
        if IsBit(new_[n - 1]) { return Fixed(ENC_LSH0 + BitOf(new_[n - 1])); }
      } else if old_[..n - 1] == new_[1..] {
        if IsBit(new_[0]) { return Fixed(ENC_RSH0 + BitOf(new_[0])); }
      }
      if n <= 32 {
        var numbers := ScanNumbers(old_, new_);
        if numbers.Some? {
          var step := StepChoice(numbers.value.0, numbers.value.1, n, MaskModulus(n, signedShift));
          if step.Some? { return Fixed(step.value); }
        }
      }
    }
  }

  // ---------------------------------------------------------------- the reader

  /**
   The value a code stands for when the symbol held `base`. Inversion and increments are
   defined on bit strings only; a dictionary code must name a word that fits.
   */
  function Decode(code: nat, base: string, dict: seq<string>): (v: Option<string>) {
    var n := |base|;
    if code == ENC_0 then Some(Fill(n, '0'))
    else if code == ENC_1 then Some(Fill(n, '1'))
    else if code == ENC_X then Some(Fill(n, 'x'))
    else if code == ENC_Z then Some(Fill(n, 'z'))
    else if code == ENC_INV then
      if Binary(base) then Some(Flipped(base)) else None
    else if ENC_LSH0 <= code < ENC_RSH0 then
      if n == 0 then None else Some(base[1..] + [if code == ENC_LSH0 then '0' else '1'])
    else if ENC_RSH0 <= code < ENC_ADD1 then
      if n == 0 then None else Some([if code == ENC_RSH0 then '0' else '1'] + base[..n - 1])
    else if ENC_ADD1 <= code < ENC_X then
      if Binary(base) then Some(Bits((Number(base) + Increment(code)) % Pow2(n), n)) else None
    else if DICT_START <= code < DICT_START + |dict| && dict[code - DICT_START] != "" then
      Some(Pad(dict[code - DICT_START], n))
    else None
  }

  function Increment(code: nat): int
    requires ENC_ADD1 <= code < ENC_X
  {
    if code < ENC_SUB1 then code - ENC_ADD1 + 1 else -(code - ENC_SUB1 + 1)
  }

  /** The part of the base value that a code reads; nothing for the absolute ones. */
  function Reads(code: nat, base: string): string {
    if code == ENC_INV || ENC_ADD1 <= code < ENC_X then base
    else if |base| == 0 then ""
    else if ENC_LSH0 <= code < ENC_RSH0 then base[1..]
    else if ENC_RSH0 <= code < ENC_ADD1 then base[..|base| - 1]
    else ""
  }

  // ---------------------------------------------------------------- soundness

  lemma StepIsModular(a: nat, b: nat, d: int, n: nat, m: nat)
    requires n <= 32 && b < Pow2(n) && (m == Pow2(n) || m == TWO32)
    requires StepsBy(a, b, d, m)
    ensures (a + d) % Pow2(n) == b
  {
    Pow2Splits(n, 32 - n);
    Pow2Of32();
    ModOfProduct(a + d, Pow2(n), Pow2(32 - n));
    if m == TWO32 {
      ModUnique((a + d) % TWO32, TWO32, 0, (a + d) % TWO32);
      ModUnique(b, Pow2(n), 0, b);
    }
  }

  lemma RelativeSound(old_: string, new_: string, signedShift: bool, dict: seq<string>)
    requires |old_| == |new_| > 0 && RelativeChoice(old_, new_, signedShift).Some?
    ensures Decode(RelativeChoice(old_, new_, signedShift).value, old_, dict) == Some(new_)
  {
    var n := |new_|;
    if Inverse(old_, new_) {
      assert Flipped(old_) == new_;
    } else if ShiftChoice(old_, new_).Some? {
      if old_[1..] == new_[..n - 1] {
        assert new_ == new_[..n - 1] + [new_[n - 1]];
      } else {
        assert new_ == [new_[0]] + new_[1..];
      }
    } else {
      var a, b, m := Number(old_), Number(new_), MaskModulus(n, signedShift);
      var code := StepChoice(a, b, n, m).value;
      assert StepsBy(a, b, Increment(code), m);
      NumberBound(new_);
      StepIsModular(a, b, Increment(code), n, m);
      BitsOfNumber(new_);
    }
  }

  /**
   A freshly chosen code decodes to the new value from the old one, under either reading of the
   signed shift at line 1935.
   */
  lemma ChooseSound(absolute: bool, old_: string, new_: string, signedShift: bool, dict: seq<string>)
    requires |old_| == |new_| > 0
    ensures match Choose(absolute, old_, new_, signedShift)
      case Fixed(code) => code < DICT_START && Decode(code, old_, dict) == Some(new_)
      case InDictionary =>
        forall id | 0 <= id < |dict| && dict[id] == Word(new_) :: Decode(DICT_START + id, old_, dict) == Some(new_)
  {
    if !absolute && RelativeChoice(old_, new_, signedShift).Some? {
      RelativeSound(old_, new_, signedShift, dict);
    } else {
      PadUndoesTruncation(new_);
      if UniformChoice(new_).Fixed? {
        assert new_ == Fill(|new_|, new_[0]);
      }
    }
  }

  /** A code that decodes from one base decodes alike from exactly the bases it reads alike. */
  lemma DecodeReadsOnly(code: nat, b0: string, b1: string, dict: seq<string>)
    requires |b0| == |b1| && Decode(code, b1, dict).Some?
    ensures Decode(code, b0, dict) == Decode(code, b1, dict) <==> Reads(code, b0) == Reads(code, b1)
  {
    var n := |b1|;
    if Decode(code, b0, dict) == Decode(code, b1, dict) {
      var v := Decode(code, b1, dict).value;
      if code == ENC_INV {
        forall i | 0 <= i < n ensures b0[i] == b1[i] {
          assert Flipped(b0)[i] == Flipped(b1)[i];
        }
        assert b0 == b1;
      } else if ENC_LSH0 <= code < ENC_RSH0 {
        assert v[..n - 1] == b0[1..] && v[..n - 1] == b1[1..];
      } else if ENC_RSH0 <= code < ENC_ADD1 {
        assert v[1..] == b0[..n - 1] && v[1..] == b1[..n - 1];
      } else if ENC_ADD1 <= code < ENC_X {
        SameStepSameBase(b0, b1, Increment(code));
      }
    }
  }

  lemma {:induction false} NumberOfBits(x: nat, n: nat)
    requires x < Pow2(n)
    ensures Binary(Bits(x, n)) && Number(Bits(x, n)) == x
  {
    if n > 0 {
      NumberOfBits(x / 2, n - 1);
      var s := Bits(x, n);
      assert s[..n - 1] == Bits(x / 2, n - 1);
    }
  }

  lemma SameStepSameBase(b0: string, b1: string, d: int)
    requires |b0| == |b1| && Binary(b0) && Binary(b1)
    requires Bits((Number(b0) + d) % Pow2(|b0|), |b0|) == Bits((Number(b1) + d) % Pow2(|b1|), |b1|)
    ensures b0 == b1
  {
    var p, x, y := Pow2(|b0|), Number(b0), Number(b1);
    NumberBound(b0);
    NumberBound(b1);
    NumberOfBits((x + d) % p, |b0|);
    NumberOfBits((y + d) % p, |b1|);
    SameResidue(x + d, y + d, p);
    NumberInjective(b0, b1);
  }
}
