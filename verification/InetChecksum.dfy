/**
 The Internet checksum of RFC 1071, as the packet builder uses it: 16-bit
 big-endian words are accumulated in a wide register, folded once at the end,
 and complemented. The reference form adds word by word with end-around carry.
 */
module InetChecksum {
  import opened Bytes

  /** Wide sum of the big-endian words; an odd last byte is padded with zero. */
  function WideSum(s: seq<byte>): nat {
    if |s| == 0 then 0
    else if |s| == 1 then Word(s[0], 0)
    else Word(s[0], s[1]) + WideSum(s[2..])
  }

  /** Folds the carries above bit 15 back in until none is left. */
  function Fold(n: nat): u16 {
    if n < 0x1_0000 then n else Fold(n / 0x1_0000 + n % 0x1_0000)
  }

  /** The 16-bit one's complement of the folded sum. */
  function Checksum(s: seq<byte>): u16 {
    0xffff - Fold(WideSum(s))
  }

  /** Reference: one's-complement addition with end-around carry. */
  function OnesAdd(a: u16, b: u16): u16 {
    if a + b > 0xffff then a + b - 0xffff else a + b
  }

  /** Reference: the one's-complement sum of RFC 1071, one word at a time. */
  function OnesSum(s: seq<byte>): u16 {
    if |s| == 0 then 0
    else if |s| == 1 then Word(s[0], 0)
    else OnesAdd(Word(s[0], s[1]), OnesSum(s[2..]))
  }

  /** What a receiver checks: with the checksum in place the sum is all ones. */
  predicate Valid(s: seq<byte>) {
    OnesSum(s) == 0xffff
  }

  /** Residue modulo 0xffff with the representative 0xffff for nonzero multiples. */
  function Residue(n: nat): u16 {
    if n == 0 then 0 else (n - 1) % 0xffff + 1
  }

  lemma ResidueStep(q: nat, r: nat)
    ensures Residue(q * 0xffff + r) == if r == 0 && q > 0 then 0xffff else Residue(r)
  {
    if r > 0 {
      assert (q * 0xffff + (r - 1)) % 0xffff == (r - 1) % 0xffff;
    } else if q > 0 {
      assert q * 0xffff - 1 == (q - 1) * 0xffff + 0xfffe;
      assert ((q - 1) * 0xffff + 0xfffe) % 0xffff == 0xfffe;
    }
  }

  lemma {:induction false} FoldIsResidue(n: nat)
    ensures Fold(n) == Residue(n)
  {
    if n >= 0x1_0000 {
      var q, r := n / 0x1_0000, n % 0x1_0000;
      FoldIsResidue(q + r);
      assert n == q * 0xffff + (q + r);
      ResidueStep(q, q + r);
    }
  }

  lemma ResidueAdd(a: u16, n: nat)
    ensures Residue(a + n) == OnesAdd(a, Residue(n))
  {
    if n > 0 {
      var q := (n - 1) / 0xffff;
      var r := Residue(n);
      assert n == q * 0xffff + r;
      ResidueStep(q, a + r);
      if a + r > 0xffff {
        ResidueStep(1, a + r - 0xffff);
      }
    }
  }

  lemma ResidueOfWord(n: u16)
    ensures Residue(n) == n
  {
  }

  lemma {:induction false} ResidueIsOnesSum(s: seq<byte>)
    ensures Residue(WideSum(s)) == OnesSum(s)
  {
    hide Residue, OnesAdd, Word;
    if |s| == 0 {
      ResidueOfWord(0);
    } else if |s| == 1 {
      ResidueOfWord(Word(s[0], 0));
    } else {
      ResidueIsOnesSum(s[2..]);
      ResidueAdd(Word(s[0], s[1]), WideSum(s[2..]));
    }
  }

  /** The wide, fold-once accumulation refines word-by-word end-around carry: the
      checksum is the complement of the RFC's sum. */
  lemma FoldedSumIsOnesSum(s: seq<byte>)
    ensures Checksum(s) == 0xffff - OnesSum(s)
  {
    FoldIsResidue(WideSum(s));
    ResidueIsOnesSum(s);
  }

  /** Feeding the accumulator in pieces is the same as feeding it the whole,
      as long as every piece but the last has even length. */
  lemma {:induction false} WideSumConcat(a: seq<byte>, b: seq<byte>)
    requires |a| % 2 == 0
    ensures WideSum(a + b) == WideSum(a) + WideSum(b)
  {
    if |a| == 0 {
      assert a + b == b;
    } else {
      assert (a + b)[2..] == a[2..] + b;
      WideSumConcat(a[2..], b);
    }
  }

  /** An odd last byte counts as the high half of a word whose low half is zero, and
      a word as 256 times its first byte plus its second. */
  lemma {:induction false} OddBytePadded(s: seq<byte>)
    ensures |s| % 2 == 1 ==> OnesSum(s) == OnesSum(s + [0])
    ensures |s| == 2 ==> OnesSum(s) == Pair(s[0], s[1])
  {
    if |s| == 2 {
      assert s[2..] == [];
    } else if |s| == 1 {
      assert (s + [0])[2..] == [];
    } else if |s| > 2 {
      assert (s + [0])[2..] == s[2..] + [0];
      OddBytePadded(s[2..]);
    }
  }

  lemma WideSumBe16(n: u16)
    ensures WideSum(Be16(n)) == n
  {
  }

  lemma ComplementCompletes(w: nat)
    ensures Fold(w + 0xffff - Fold(w)) == 0xffff
  {
    FoldIsResidue(w);
    FoldIsResidue(w + 0xffff - Fold(w));
    if w > 0 {
      var q := (w - 1) / 0xffff;
      assert w == q * 0xffff + Residue(w);
      ResidueStep(q + 1, 0);
    }
  }

  lemma WideSumSplice(before: seq<byte>, word: u16, after: seq<byte>)
    requires |before| % 2 == 0
    ensures WideSum(before + Be16(word) + after) == WideSum(before) + word + WideSum(after)
  {
    WideSumBe16(word);
    hide WideSum, Be16;
    WideSumConcat(before + Be16(word), after);
    WideSumConcat(before, Be16(word));
  }

  /** Storing the checksum computed over a zeroed field makes the whole valid. */
  lemma ChecksumValidates(before: seq<byte>, after: seq<byte>)
    requires |before| % 2 == 0
    ensures Valid(before + Be16(Checksum(before + Be16(0) + after)) + after)
  {
    hide WideSum, Fold, OnesSum, Be16;
    var zeroed := before + Be16(0) + after;
    var c := Checksum(zeroed);
    WideSumSplice(before, 0, after);
    WideSumSplice(before, c, after);
    ComplementCompletes(WideSum(zeroed));
    FoldedSumIsOnesSum(before + Be16(c) + after);
  }
}
