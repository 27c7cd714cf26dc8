/** Internet checksum (kernel/net/checksum.c), section 1 of RFC 1071.
 *
 *  A byte string is read as big-endian 16-bit words, an odd last byte being the high half
 *  of a word. The kernel adds them in a 32-bit accumulator and folds the carries.
 */
module Checksum {
  import opened Arithmetic

  const WORD32: nat := 0x1_0000_0000
  const ONES: nat := 0xFFFF

  type Byte = x: int | 0 <= x < 256
  type Half = x: int | 0 <= x < 0x1_0000

  function Word(hi: Byte, lo: Byte): (w: Half) {
    hi * 256 + lo
  }

  /** The mathematical sum of the words, with no width. */
  function Words(d: seq<Byte>): (n: nat) {
    if d == [] then 0
    else if |d| == 1 then Word(d[0], 0)
    else Word(d[0], d[1]) + Words(d[2..])
  }

  lemma {:induction false} WordsBound(d: seq<Byte>)
    ensures Words(d) <= (|d| + 1) / 2 * ONES
  {
    if |d| > 1 {
      WordsBound(d[2..]);
    }
  }

  /** End-around carry: add the high half back in until the sum fits 16 bits. */
  function Folded(sum: nat): (n: Half) {
    if sum < 0x1_0000 then sum else Folded(sum % 0x1_0000 + sum / 0x1_0000)
  }

  /** Folding keeps the value modulo 65535, and of the two representatives of zero it
   *  gives 0xFFFF to every non-zero sum. */
  lemma {:induction false} FoldedFacts(sum: nat)
    ensures Folded(sum) % ONES == sum % ONES
    ensures Folded(sum) == 0 <==> sum == 0
    ensures Folded(sum) == ONES <==> sum > 0 && sum % ONES == 0
  {
    if sum >= 0x1_0000 {
      var next := sum % 0x1_0000 + sum / 0x1_0000;
      FoldedFacts(next);
      assert sum == next + ONES * (sum / 0x1_0000);
      ModPlus(next, sum / 0x1_0000);
    }
  }

  lemma {:induction false} ModPlus(a: nat, k: nat)
    ensures (a + ONES * k) % ONES == a % ONES
  {
    assert a + ONES * k == (a / ONES + k) * ONES + a % ONES;
  }

  /** What is stored in the header. */
  function Complement(sum: nat): (c: Half) {
    ONES - Folded(sum)
  }

  /** Words of a string that follows an even number of bytes. */
  lemma {:induction false} WordsConcat(a: seq<Byte>, b: seq<Byte>)
    requires |a| % 2 == 0
    ensures Words(a + b) == Words(a) + Words(b)
    decreases |a|
  {
    if a == [] {
      assert [] + b == b;
    } else {
      assert (a + b)[2..] == a[2..] + b;
      WordsConcat(a[2..], b);
    }
  }

  /** A receiver's verdict: the stored complement makes the whole sum a non-zero multiple
   *  of 65535, also when a computed zero was replaced by 0xFFFF, and then the check gives
   *  zero. */
  lemma {:induction false} CheckPasses(rest: nat, c: nat)
    requires c == Complement(rest) || (Complement(rest) == 0 && c == ONES)
    requires rest + c > 0
    ensures Complement(rest + c) == 0
  {
    hide Folded;
    FoldedFacts(rest);
    FoldedFacts(rest + c);
    var k := rest / ONES;
    if Folded(rest) == ONES && c == 0 {
      assert rest + c == 0 + ONES * k;
      ModPlus(0, k);
    } else {
      assert rest + c == 0 + ONES * (k + 1);
      ModPlus(0, k + 1);
    }
  }

  /** Changing one 16-bit word of something that passed is missed exactly when the two
   *  words are the two zeros 0x0000 and 0xFFFF (and something else is non-zero). */
  lemma {:induction false} OneWordChanged(rest: nat, w: Half, w': Half)
    requires Complement(rest + w) == 0
    ensures Complement(rest + w') == 0 <==>
      w == w' || (rest + w' > 0 && ((w == 0 && w' == ONES) || (w == ONES && w' == 0)))
  {
    FoldedFacts(rest + w);
    FoldedFacts(rest + w');
    MultiplesApart(rest + w, rest + w');
  }

  lemma {:induction false} MultiplesApart(a: nat, b: nat)
    requires a % ONES == 0 && a <= b + ONES && b <= a + ONES
    ensures b % ONES == 0 <==> b + ONES == a || b == a || b == a + ONES
  {
    var k := a / ONES;
    assert a == ONES * k;
    if b == a + ONES {
      ModPlus(0, k + 1);
    } else if b + ONES == a {
      assert k > 0;
      ModPlus(0, k - 1);
    }
    if b % ONES == 0 {
      var j := b / ONES;
      assert b == ONES * j;
      assert b - a == ONES * (j - k);
      assert -1 <= j - k <= 1;
    }
  }

  lemma {:induction false} NoWords()
    ensures Words([]) == 0
  {
  }

  lemma {:induction false} NextWord(d: seq<Byte>, p: nat)
    requires p < |d|
    ensures p + 1 < |d| ==> Words(d[p..]) == Word(d[p], d[p + 1]) + Words(d[p + 2..])
    ensures p + 1 == |d| ==> Words(d[p..]) == Word(d[p], 0)
  {
    if p + 1 < |d| {
      assert d[p..][2..] == d[p + 2..];
    }
  }

  /** The word at an even offset. */
  function WordOf(d: seq<Byte>, o: nat): (w: Half)
    requires o < |d|
  {
    Word(d[o], if o + 1 < |d| then d[o + 1] else 0)
  }

  lemma {:induction false} SplitAt(d: seq<Byte>, o: nat)
    requires o % 2 == 0 && o < |d|
    ensures Words(d) == Words(d[..o]) + WordOf(d, o) + (if o + 2 <= |d| then Words(d[o + 2..]) else 0)
  {
    hide Word;
    hide Words;
    assert d == d[..o] + d[o..];
    WordsConcat(d[..o], d[o..]);
    NextWord(d, o);
  }

  /** Two messages that differ in the word at one even offset at most, the first of which passes
   *  the check with the rest `sum`: the second passes too exactly when the words are equal or
   *  are the two zeros, and something is non-zero. */
  lemma {:induction false} MessageWordChanged(sum: nat, d: seq<Byte>, e: seq<Byte>, o: nat)
    requires o % 2 == 0 && o < |d| == |e| && forall k :: 0 <= k < |d| && k / 2 != o / 2 ==> d[k] == e[k]
    requires Complement(sum + Words(d)) == 0
    ensures var w, w' := WordOf(d, o), WordOf(e, o);
      Complement(sum + Words(e)) == 0 <==>
        w == w' || (sum + Words(e) > 0 && ((w == 0 && w' == ONES) || (w == ONES && w' == 0)))
  {
    hide Complement;
    hide Words;
    SplitAt(d, o);
    SplitAt(e, o);
    assert d[..o] == e[..o];
    assert o + 2 <= |d| ==> d[o + 2..] == e[o + 2..];
    var rest := Words(d) - WordOf(d, o);
    assert rest >= 0 && Words(e) == rest + WordOf(e, o);
    OneWordChanged(sum + rest, WordOf(d, o), WordOf(e, o));
  }

  // ---- The loops ------------------------------------------------------------------

  /** What a 32-bit accumulator keeps of a sum. */
  function Kept(total: nat): (r: nat)
    ensures r < WORD32
  {
    total % WORD32
  }

  lemma {:induction false} KeptAdd(total: nat, w: nat)
    ensures Kept(Kept(total) + w) == Kept(total + w)
  {
    AddMod(total, w, WORD32);
  }

  lemma {:induction false} KeptSmall(total: nat)
    ensures total < WORD32 ==> Kept(total) == total
  {
  }

  /** `net_csum_partial`: the accumulator is 32 bits wide. */
  method Partial(d: seq<Byte>, sum: nat) returns (r: nat)
    requires sum < WORD32
    ensures r == Kept(sum + Words(d))
    ensures sum + Words(d) < WORD32 ==> r == sum + Words(d)
  {
    hide Words;
    hide Word;
    hide Kept;
    NoWords();
    KeptSmall(sum);
    KeptSmall(sum + Words(d));
    r := sum;
    var p := 0;
    ghost var total: nat := sum;
    assert d[0..] == d;
    while |d| - p > 1
      invariant 0 <= p <= |d| && r == Kept(total) && total + Words(d[p..]) == sum + Words(d)
      decreases |d| - p
    {
      NextWord(d, p);
      KeptAdd(total, Word(d[p], d[p + 1]));
      r := Kept(r + Word(d[p], d[p + 1]));
      total := total + Word(d[p], d[p + 1]);
      p := p + 2;
    }
    assert p == |d| ==> d[p..] == [];
    if |d| - p == 1 {
      NextWord(d, p);
      KeptAdd(total, Word(d[p], 0));
      r := Kept(r + Word(d[p], 0));
    }
  }

  /** `net_csum_fold`, as the number whose two bytes go into the header in network order. */
  method Fold(sum: nat) returns (c: Half)
    ensures c == Complement(sum)
  {
    var s: nat := sum;
    while s / 0x1_0000 != 0
      invariant Folded(s) == Folded(sum)
      decreases s
    {
      s := s % 0x1_0000 + s / 0x1_0000;
    }
    c := ONES - s;
  }

  /** The pseudo header: both addresses, the protocol and the transport length. */
  function PseudoSum(src: seq<Byte>, dst: seq<Byte>, proto: Byte, len: Half): (n: nat)
    requires |src| == 4 && |dst| == 4
  {
    Words(src) + Words(dst) + proto + len
  }

  /** `net_transport_checksum`: for every 16-bit length the 32-bit accumulator is exact. */
  method Transport(src: seq<Byte>, dst: seq<Byte>, proto: Byte, l4: seq<Byte>) returns (c: Half)
    requires |src| == 4 && |dst| == 4 && |l4| < 0x1_0000
    ensures PseudoSum(src, dst, proto, |l4|) + Words(l4) < WORD32
    ensures c == Complement(PseudoSum(src, dst, proto, |l4|) + Words(l4))
  {
    hide Words;
    hide Kept;
    WordsBound(src);
    WordsBound(dst);
    WordsBound(l4);
    var sum := Partial(src, 0);
    sum := Partial(dst, sum);
    assert sum == Words(src) + Words(dst) <= 4 * ONES;
    KeptSmall(sum + proto);
    sum := Kept(sum + proto);
    KeptSmall(sum + |l4|);
    sum := Kept(sum + |l4|);
    assert sum == PseudoSum(src, dst, proto, |l4|) < 6 * 0x1_0000;
    assert (|l4| + 1) / 2 <= 0x8000;
    sum := Partial(l4, sum);
    c := Fold(sum);
  }
}
