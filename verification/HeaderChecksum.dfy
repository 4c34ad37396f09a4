/** ipv4_hdr_checksum of ctrl_iface.c (section 3.1 of RFC 791, section 1 of RFC 1071). */
module HeaderChecksum {

  type Word = w: int | 0 <= w < 65536
  const U32 := 0x1_0000_0000

  function Sum(words: seq<Word>): nat {
    if words == [] then 0 else Sum(words[..|words| - 1]) + words[|words| - 1]
  }

  lemma {:induction false} SumBound(words: seq<Word>)
    ensures Sum(words) <= 65535 * |words|
  {
    if words != [] { SumBound(words[..|words| - 1]); }
  }

  /** The carries added back in until none is left. */
  function Fold(sum: nat): (r: nat)
    ensures r < 65536
    decreases sum
  {
    if sum / 65536 == 0 then sum else Fold(sum % 65536 + sum / 65536)
  }

  function Checksum(words: seq<Word>): Word {
    65535 - Fold(Sum(words))
  }

  // --- arithmetic modulo 65535 -----------------------------------------------

  lemma FoldOnce(sum: nat)
    ensures (sum % 65536 + sum / 65536) % 65535 == sum % 65535
  {
    var q := sum / 65536;
    assert sum == sum % 65536 + q + 65535 * q;
    ModMultiple(sum % 65536 + q, q);
  }

  lemma {:induction false} ModMultiple(a: nat, q: nat)
    ensures (a + 65535 * q) % 65535 == a % 65535
    decreases q
  {
    if q > 0 {
      ModMultiple(a, q - 1);
      assert a + 65535 * q == a + 65535 * (q - 1) + 65535;
    }
  }

  /** Folding keeps the sum modulo 65535, and gives 0 only for 0. */
  lemma {:induction false} FoldMod(sum: nat)
    ensures Fold(sum) % 65535 == sum % 65535
    ensures Fold(sum) == 0 <==> sum == 0
    decreases sum
  {
    if sum / 65536 != 0 {
      FoldOnce(sum);
      FoldMod(sum % 65536 + sum / 65536);
    }
  }

  /** The checksum is 0 exactly when the sum is a positive multiple of 65535. */
  lemma ZeroIff(words: seq<Word>)
    ensures Checksum(words) == 0 <==> Sum(words) > 0 && Sum(words) % 65535 == 0
  {
    FoldMod(Sum(words));
  }

  lemma {:induction false} SumUpdate(words: seq<Word>, k: nat, w: Word)
    requires k < |words|
    ensures Sum(words[k := w]) == Sum(words) - words[k] + w
  {
    var m := |words| - 1;
    if k == m {
      assert words[k := w][..m] == words[..m];
    } else {
      assert words[k := w][..m] == words[..m][k := w];
      SumUpdate(words[..m], k, w);
    }
  }

  /** Storing the checksum in the zeroed check word makes the checksum of the whole 0. */
  lemma StoredChecksum(words: seq<Word>, k: nat)
    requires k < |words| && words[k] == 0
    ensures Checksum(words[k := Checksum(words)]) == 0
  {
    var s := Sum(words);
    var f := Fold(s);
    SumUpdate(words, k, Checksum(words));
    FoldMod(s);
    var t := s + 65535 - f;
    assert t % 65535 == 0 by {
      assert s == 65535 * (s / 65535) + s % 65535 && f == 65535 * (f / 65535) + f % 65535;
      assert t == 65535 * (s / 65535 - f / 65535 + 1);
    }
    ZeroIff(words[k := Checksum(words)]);
  }

  /** In a header with checksum 0, any change of one word shows, but for 0 and 65535 exchanged. */
  lemma ChangeDetected(words: seq<Word>, k: nat, w: Word)
    requires k < |words| && Checksum(words) == 0 && Checksum(words[k := w]) == 0
    ensures w == words[k] || {w, words[k]} == {0, 65535}
  {
    SumUpdate(words, k, w);
    ZeroIff(words);
    ZeroIff(words[k := w]);
    var s: int, t: int := Sum(words), Sum(words[k := w]);
    assert t - s == w - words[k] && -65535 <= t - s <= 65535;
    assert s == 65535 * (s / 65535) && t == 65535 * (t / 65535);
    assert t - s == 65535 * (t / 65535 - s / 65535);
  }

  // --- the loops -------------------------------------------------------------

  /** In 32 bits: for at most 65537 words the sum does not wrap around. */
  method AddWords(buf: array<Word>) returns (sum: nat)
    requires buf.Length <= 65537
    ensures sum == Sum(buf[..]) < U32
  {
    sum := 0;
    var i := 0;
    while i < buf.Length
      invariant i <= buf.Length && sum == Sum(buf[..i]) < U32
    {
      assert buf[..i + 1][..i] == buf[..i];
      SumBound(buf[..i + 1]);
      sum := (sum + buf[i]) % U32;
      i := i + 1;
    }
    assert buf[..i] == buf[..];
  }

  /** Folding ends, and stays within 32 bits. */
  method AddCarries(sum0: nat) returns (sum: nat)
    requires sum0 < U32
    ensures sum == Fold(sum0)
  {
    sum := sum0;
    while sum / 65536 != 0
      invariant sum < U32 && Fold(sum) == Fold(sum0)
      decreases sum
    {
      sum := (sum % 65536 + sum / 65536) % U32;
    }
  }

  method Ipv4HeaderChecksum(buf: array<Word>) returns (r: Word)
    requires buf.Length <= 65537
    ensures r == Checksum(buf[..])
  {
    var sum := AddWords(buf);
    sum := AddCarries(sum);
    r := 65535 - sum;
  }
}
