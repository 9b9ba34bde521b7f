/**
 * Binary strings as the protocol writes them: Python `str` values made of
 * the characters '0' and '1', most significant bit first.
 */
module BinaryStrings {

  predicate IsBit(c: char) {
    c == '0' || c == '1'
  }

  predicate IsBinary(s: string) {
    forall i :: 0 <= i < |s| ==> IsBit(s[i])
  }

  function Pow2(n: nat): (r: nat)
    ensures r >= 1
  {
    if n == 0 then 1 else 2 * Pow2(n - 1)
  }

  /** The bounds of an 8-bit and a 16-bit field. */
  lemma Pow2OfFieldWidths()
    ensures Pow2(8) == 256 && Pow2(16) == 65536
  {
    assert Pow2(4) == 16;
    assert Pow2(8) == 256;
    assert Pow2(12) == 4096;
  }

  /** The value of one bit character. */
  function Bit(c: char): nat {
    if c == '1' then 1 else 0
  }

  /** The unsigned value of a binary string; a w-bit string stays below 2^w. */
  function BitsValue(s: string): (v: nat)
    requires IsBinary(s)
    ensures v < Pow2(|s|)
  {
    if s == [] then 0
    else 2 * BitsValue(s[..|s| - 1]) + Bit(s[|s| - 1])
  }

  /**
   * The low w bits of n, most significant first; for n below 2^w this is the
   * zero-padded binary representation (Python's format(n, '0wb')).
   */
  function ToBinary(n: nat, w: nat): string {
    if w == 0 then ""
    else ToBinary(n / 2, w - 1) + [if n % 2 == 1 then '1' else '0']
  }

  /** A value below 2^w padded to w bits is a w-bit string with that value. */
  lemma {:induction false} ToBinaryValue(n: nat, w: nat)
    requires n < Pow2(w)
    ensures |ToBinary(n, w)| == w && IsBinary(ToBinary(n, w)) && BitsValue(ToBinary(n, w)) == n
  {
    if w > 0 {
      ToBinaryValue(n / 2, w - 1);
      var p := ToBinary(n / 2, w - 1);
      assert ToBinary(n, w) == p + [if n % 2 == 1 then '1' else '0'];
      assert ToBinary(n, w)[..w - 1] == p;
    }
  }

  /** Padding the value of a binary string back to its width gives the string again. */
  lemma {:induction false} ToBinaryOfValue(s: string)
    requires IsBinary(s)
    ensures ToBinary(BitsValue(s), |s|) == s
  {
    if s != [] {
      var p := s[..|s| - 1];
      var last := s[|s| - 1];
      assert IsBinary(p);
      var v, b := BitsValue(p), if last == '1' then 1 else 0;
      assert BitsValue(s) == 2 * v + b;
      assert BitsValue(s) / 2 == v && BitsValue(s) % 2 == b;
      ToBinaryOfValue(p);
      ToBinaryValue(v, |p|);
      assert (if BitsValue(s) % 2 == 1 then '1' else '0') == last;
      assert s == p + [last];
    }
  }

  /** Two binary strings of one width with one value are the same string. */
  lemma BitsValueInjective(a: string, b: string)
    requires IsBinary(a) && IsBinary(b) && |a| == |b|
    requires BitsValue(a) == BitsValue(b)
    ensures a == b
  {
    ToBinaryOfValue(a);
    ToBinaryOfValue(b);
  }

  lemma IsBinaryConcat(a: string, b: string)
    ensures IsBinary(a + b) <==> IsBinary(a) && IsBinary(b)
  {
    if IsBinary(a) && IsBinary(b) {
      forall i | 0 <= i < |a + b| ensures IsBit((a + b)[i]) {
        if i < |a| { assert (a + b)[i] == a[i]; } else { assert (a + b)[i] == b[i - |a|]; }
      }
    }
    if IsBinary(a + b) {
      forall i | 0 <= i < |a| ensures IsBit(a[i]) {
        assert (a + b)[i] == a[i];
      }
      forall i | 0 <= i < |b| ensures IsBit(b[i]) {
        assert (a + b)[|a| + i] == b[i];
      }
    }
  }

  /** A string of '0' only has value zero. */
  lemma {:induction false} BitsValueOfZeros(s: string)
    requires forall i :: 0 <= i < |s| ==> s[i] == '0'
    ensures IsBinary(s) && BitsValue(s) == 0
  {
    if s != [] {
      BitsValueOfZeros(s[..|s| - 1]);
    }
  }

  /** Each further character doubles the value of the prefix before it and adds its own bit. */
  lemma BitsValueStep(s: string, k: nat)
    requires IsBinary(s) && k < |s|
    ensures BitsValue(s[..k + 1]) == 2 * BitsValue(s[..k]) + Bit(s[k])
  {
    assert s[..k + 1][..k] == s[..k];
  }

  /** The value of a 6-bit string, position by position. */
  lemma BitsValueOfSixBits(s: string)
    requires |s| == 6 && IsBinary(s)
    ensures BitsValue(s) == 32 * Bit(s[0]) + 16 * Bit(s[1]) + 8 * Bit(s[2]) + 4 * Bit(s[3]) + 2 * Bit(s[4]) + Bit(s[5])
  {
    assert s[..0] == [];
    BitsValueStep(s, 0);
    BitsValueStep(s, 1);
    BitsValueStep(s, 2);
    BitsValueStep(s, 3);
    BitsValueStep(s, 4);
    BitsValueStep(s, 5);
    assert s[..6] == s;
  }
}
