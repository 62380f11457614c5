/** print_binary: the binary digits of an unsigned 64-bit value, most
    significant first, produced by filling a character buffer from its end
    while shifting the value right. */
module BinaryText {
  import opened BankTable

  /** The binary digits of v, most significant first; empty for 0. */
  function Binary(v: nat): string
  {
    if v == 0 then "" else Binary(v / 2) + [if v % 2 == 1 then '1' else '0']
  }

  /** The value of a string of binary digits, read most significant first. */
  function FromBinary(s: string): nat
  {
    if s == [] then 0 else 2 * FromBinary(s[..|s| - 1]) + (if s[|s| - 1] == '1' then 1 else 0)
  }

  /** Digits only, and no leading zero. */
  predicate Canonical(s: string)
  {
    (forall k | 0 <= k < |s| :: s[k] == '0' || s[k] == '1') && (s != [] ==> s[0] == '1')
  }

  function Pow2(k: nat): nat
  {
    if k == 0 then 1 else 2 * Pow2(k - 1)
  }

  /** The digits of v are binary digits with no leading zero, and there are
      none exactly when v is 0. */
  lemma {:induction false} BinaryCanonical(v: nat)
    ensures Canonical(Binary(v))
    ensures Binary(v) == [] <==> v == 0
  {
    if v > 0 {
      BinaryCanonical(v / 2);
      var s := Binary(v);
      assert s == Binary(v / 2) + [s[|s| - 1]];
      if v / 2 == 0 {
        assert v == 1;
      }
    }
  }

  /** Reading the digits back as base 2 gives v. */
  lemma {:induction false} BinaryRoundTrip(v: nat)
    ensures FromBinary(Binary(v)) == v
  {
    if v > 0 {
      BinaryRoundTrip(v / 2);
      var s := Binary(v);
      assert s[..|s| - 1] == Binary(v / 2);
    }
  }

  /** Every canonical digit string is the digit string of its value. */
  lemma {:induction false} FromBinaryRoundTrip(s: string)
    requires Canonical(s)
    ensures Binary(FromBinary(s)) == s
    decreases |s|
  {
    if s != [] {
      var front := s[..|s| - 1];
      var v := FromBinary(s);
      assert Canonical(front);
      FromBinaryRoundTrip(front);
      if front == [] {
        assert v == 1;
      } else {
        assert front[0] == '1';
        FromBinaryPositive(front);
      }
      assert v / 2 == FromBinary(front) && v % 2 == (if s[|s| - 1] == '1' then 1 else 0);
      assert s == front + [s[|s| - 1]];
    }
  }

  lemma {:induction false} FromBinaryPositive(s: string)
    requires s != [] && s[0] == '1'
    ensures FromBinary(s) > 0
    decreases |s|
  {
    if |s| > 1 {
      FromBinaryPositive(s[..|s| - 1]);
    }
  }

  /** A value below 2^k has at most k digits. */
  lemma {:induction false} BinaryLength(v: nat, k: nat)
    requires v < Pow2(k)
    ensures |Binary(v)| <= k
  {
    if v > 0 {
      BinaryLength(v / 2, k - 1);
    }
  }

  /** A 64-bit value has at most 64 digits, so it fits the 99-character buffer. */
  lemma WordDigits(v: nat)
    requires v < Word
    ensures |Binary(v)| <= 64
  {
    assert Pow2(8) == 0x100;
    Pow2Add(8, 8);
    assert Pow2(16) == 0x1_0000;
    Pow2Add(16, 16);
    assert Pow2(32) == 0x1_0000_0000;
    Pow2Add(32, 32);
    assert Pow2(64) == Word;
    BinaryLength(v, 64);
  }

  lemma {:induction false} Pow2Add(a: nat, b: nat)
    ensures Pow2(a + b) == Pow2(a) * Pow2(b)
  {
    if a > 0 {
      Pow2Add(a - 1, b);
    }
  }

  /** print_binary: buffer[99] ends the string; digits are written at
      buffer[98], buffer[97], ... as v is shifted right (v & 1 is the low
      bit, v >> 1 the shift), and the text from the last digit written to
      the terminator is the output. */
  method PrintBinary(v: nat) returns (s: string)
    requires v < Word
    ensures s == Binary(v)
  {
    var buffer := new char[100];
    buffer[99] := '\0';
    WordDigits(v);
    var x := v;
    var index := 98;
    while x > 0
      invariant 0 <= index + 1 <= 99
      invariant Binary(v) == Binary(x) + buffer[index + 1 .. 99]
      decreases x
    {
      assert |Binary(x)| >= 1;
      if x % 2 == 1 {
        buffer[index] := '1';
      } else {
        buffer[index] := '0';
      }
      assert buffer[index .. 99] == [buffer[index]] + buffer[index + 1 .. 99];
      x := x / 2;
      index := index - 1;
    }
    s := buffer[index + 1 .. 99];
  }
}
