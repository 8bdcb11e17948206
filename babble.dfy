// key_fingerprint_bubblebabble: the digest as pronounceable five-letter
// tuples, two bytes a tuple, with a running checksum seed that offsets
// the vowels.
module Babble {
  import opened Wire

  const VOWELS: string := "aeiouy"
  const CONSONANTS: string := "bcdfghklmnprstvzx"

  /** Number of tuples for an n-byte digest. */
  function Rounds(n: nat): nat {
    n / 2 + 1
  }

  /** The checksum step after a pair of bytes. */
  function Mix(seed: nat, b0: byte, b1: byte): nat {
    (seed * 5 + ((b0 as int) * 7 + b1)) % 36
  }

  /** The seed before tuple i: 1, then updated by each pair of bytes,
      always below 36. */
  function SeedAt(d: seq<byte>, i: nat): (seed: nat)
    requires i <= |d| / 2
    ensures seed < 36
  {
    if i == 0 then 1
    else Mix(SeedAt(d, i - 1), d[2 * (i - 1)], d[2 * (i - 1) + 1])
  }

  /** The three letters that carry one byte under a seed: the top two
      bits offset by the seed, the middle four bits, the low two bits
      offset by seed / 6. */
  function ByteLetters(b: byte, seed: nat): (r: string)
    requires seed < 36
    ensures |r| == 3
  {
    [VOWELS[((b / 64) % 4 + seed) % 6], CONSONANTS[(b / 4) % 16], VOWELS[(b % 4 + seed / 6) % 6]]
  }

  /** The consonant, '-', consonant that carry the second byte of a
      pair: its high and its low four bits. */
  function PairTail(b: byte): (r: string)
    ensures |r| == 3
  {
    [CONSONANTS[(b / 16) % 16], '-', CONSONANTS[b % 16]]
  }

  /** The letters of tuple i under seed: a full tuple (three letters, a
      consonant, '-', a consonant) while bytes pairs remain; for the last
      tuple, the three letters of the odd byte, or the seed alone. */
  function Tuple(d: seq<byte>, i: nat, seed: nat): (r: string)
    requires i < Rounds(|d|) && seed < 36
    ensures |r| == (if i + 1 < Rounds(|d|) then 6 else 3)
  {
    if i + 1 < Rounds(|d|) || |d| % 2 != 0 then
      var three := ByteLetters(d[2 * i], seed);
      if i + 1 < Rounds(|d|) then three + PairTail(d[2 * i + 1]) else three
    else [VOWELS[seed % 6], CONSONANTS[16], VOWELS[seed / 6]]
  }

  /** Length of the rendering of an n-byte digest: 'x', six letters per
      byte pair, three for the last tuple, 'x'. */
  function BabbleLength(n: nat): nat {
    6 * (n / 2) + 5
  }

  /** Tuple k of the digest's rendering sits at 1 + 6 * k in s. */
  predicate TupleAt(d: seq<byte>, s: string, k: nat)
    requires k < Rounds(|d|)
  {
    var t := Tuple(d, k, SeedAt(d, k));
    1 + 6 * k + |t| <= |s| && forall r :: 0 <= r < |t| ==> s[1 + 6 * k + r] == t[r]
  }

  /** s is the bubblebabble rendering of d: 'x', the tuples one after
      another, 'x'. */
  predicate IsBabble(d: seq<byte>, s: string) {
    |s| == BabbleLength(|d|) && s[0] == 'x' && s[|s| - 1] == 'x' &&
    forall k :: 0 <= k < Rounds(|d|) ==> TupleAt(d, s, k)
  }

  /** key_fingerprint_bubblebabble: a zeroed buffer of rounds * 6
      characters, filled through the index j; the result is the string
      up to the terminating NUL. */
  method FingerprintBubbleBabble(d: seq<byte>) returns (s: string)
    ensures IsBabble(d, s)
  {
    var n := |d|;
    var rounds := n / 2 + 1;
    var seed := 1;
    var retval := new char[rounds * 6](_ => '\0');
    retval[0] := 'x';
    var j: nat := 1;
    for i := 0 to rounds
      invariant j == (if i <= n / 2 then 1 + 6 * i else 6 * (n / 2) + 4)
      invariant j <= retval.Length && retval[0] == 'x'
      invariant forall k :: 0 <= k < i ==> TupleAt(d, retval[..j], k)
      invariant i <= n / 2 ==> seed == SeedAt(d, i)
    {
      j, seed := PutTuple(retval, j, d, i, seed);
    }
    ghost var body := retval[..j];
    retval[j] := 'x';
    s := retval[..j + 1];
    retval[j + 1] := '\0';
    forall k | 0 <= k < rounds
      ensures TupleAt(d, s, k)
    {
      TupleAtExtend(d, body, s, k);
    }
  }

  /** A tuple in place stays in place when the string grows. */
  lemma TupleAtExtend(d: seq<byte>, s: string, s': string, k: nat)
    requires k < Rounds(|d|) && TupleAt(d, s, k) && s <= s'
    ensures TupleAt(d, s', k)
  {
  }

  /** The first n tuples stay in place when the string grows. */
  lemma TuplesExtend(d: seq<byte>, s: string, s': string, n: nat)
    requires n <= Rounds(|d|) && s <= s'
    requires forall k :: 0 <= k < n ==> TupleAt(d, s, k)
    ensures forall k :: 0 <= k < n ==> TupleAt(d, s', k)
  {
    forall k | 0 <= k < n
      ensures TupleAt(d, s', k)
    {
      TupleAtExtend(d, s, s', k);
    }
  }

  /** Tuple i appended after 1 + 6 * i characters is in place. */
  lemma TupleAppended(d: seq<byte>, s: string, i: nat)
    requires i < Rounds(|d|) && |s| == 1 + 6 * i
    ensures TupleAt(d, s + Tuple(d, i, SeedAt(d, i)), i)
  {
  }

  /** Three retval[j++] stores. */
  method Put3(a: array<char>, j: nat, c0: char, c1: char, c2: char)
    requires j + 3 <= a.Length
    modifies a
    ensures a[..j + 3] == old(a[..j]) + [c0, c1, c2]
  {
    a[j] := c0;
    a[j + 1] := c1;
    a[j + 2] := c2;
  }

  /** One pass of the loop: tuple i written after the first i, and the
      seed for the next tuple. */
  method PutTuple(retval: array<char>, j: nat, d: seq<byte>, i: nat, seed: nat) returns (j': nat, seed': nat)
    requires i < Rounds(|d|) && seed == SeedAt(d, i) && retval.Length == 6 * Rounds(|d|)
    requires j == 1 + 6 * i && retval[0] == 'x'
    requires forall k :: 0 <= k < i ==> TupleAt(d, retval[..j], k)
    modifies retval
    ensures j' == (if i + 1 <= |d| / 2 then 1 + 6 * (i + 1) else 6 * (|d| / 2) + 4)
    ensures j' <= retval.Length && retval[0] == 'x'
    ensures forall k :: 0 <= k <= i ==> TupleAt(d, retval[..j'], k)
    ensures i + 1 <= |d| / 2 ==> seed' == SeedAt(d, i + 1)
  {
    ghost var before := retval[..j];
    j', seed' := WriteTuple(retval, j, d, i, seed);
    ghost var after := retval[..j'];
    assert after == before + Tuple(d, i, SeedAt(d, i));
    TuplesExtend(d, before, after, i);
    TupleAppended(d, before, i);
    assert retval[0] == before[0];
  }

  /** The stores of one tuple, and the seed update after a full one. */
  method WriteTuple(retval: array<char>, j: nat, d: seq<byte>, i: nat, seed: nat) returns (j': nat, seed': nat)
    requires i < Rounds(|d|) && seed < 36
    requires j + |Tuple(d, i, seed)| <= retval.Length
    modifies retval
    ensures j' == j + |Tuple(d, i, seed)|
    ensures retval[..j'] == old(retval[..j]) + Tuple(d, i, seed)
    ensures seed' == (if i + 1 < Rounds(|d|) then Mix(seed, d[2 * i], d[2 * i + 1]) else seed)
  {
    var rounds := |d| / 2 + 1;
    ghost var before := retval[..j];
    seed' := seed;
    if i + 1 < rounds || |d| % 2 != 0 {
      var b: int := d[2 * i];
      var idx0 := ((b / 64) % 4 + seed) % 6;
      var idx1 := (b / 4) % 16;
      var idx2 := (b % 4 + seed / 6) % 6;
      Put3(retval, j, VOWELS[idx0], CONSONANTS[idx1], VOWELS[idx2]);
      j' := j + 3;
      ghost var three := [VOWELS[idx0], CONSONANTS[idx1], VOWELS[idx2]];
      assert three == ByteLetters(d[2 * i], seed);
      if i + 1 < rounds {
        var b2: int := d[2 * i + 1];
        var idx3 := (b2 / 16) % 16;
        var idx4 := b2 % 16;
        Put3(retval, j', CONSONANTS[idx3], '-', CONSONANTS[idx4]);
        j' := j' + 3;
        seed' := Mix(seed, b, b2);
        assert [CONSONANTS[idx3], '-', CONSONANTS[idx4]] == PairTail(d[2 * i + 1]);
        ConcatAssoc(before, three, PairTail(d[2 * i + 1]));
      }
    } else {
      Put3(retval, j, VOWELS[seed % 6], CONSONANTS[16], VOWELS[seed / 6]);
      j' := j + 3;
    }
  }

  // ---------------------------------------------------------------
  // What the rendering determines.

  /** The seed depends only on the bytes already consumed. */
  lemma {:induction false} SeedAgree(d1: seq<byte>, d2: seq<byte>, i: nat)
    requires i <= |d1| / 2 && i <= |d2| / 2
    requires forall k :: 0 <= k < 2 * i ==> d1[k] == d2[k]
    ensures SeedAt(d1, i) == SeedAt(d2, i)
  {
    if i > 0 {
      SeedAgree(d1, d2, i - 1);
      assert d1[2 * (i - 1)] == d2[2 * (i - 1)] && d1[2 * (i - 1) + 1] == d2[2 * (i - 1) + 1];
    }
  }

  lemma VowelIndex(x: nat, y: nat)
    requires x < 6 && y < 6 && VOWELS[x] == VOWELS[y]
    ensures x == y
  {
  }

  lemma ConsonantIndex(x: nat, y: nat)
    requires x < 17 && y < 17 && CONSONANTS[x] == CONSONANTS[y]
    ensures x == y
  {
  }

  /** Adding one offset modulo 6 keeps two-bit values apart. */
  lemma ShiftedIndex(x: nat, y: nat, offset: nat)
    requires x < 4 && y < 4 && (x + offset) % 6 == (y + offset) % 6
    ensures x == y
  {
    var q := offset / 6;
    var r := offset % 6;
    assert (x + offset) % 6 == (x + r) % 6 by {
      assert x + offset == 6 * q + (x + r);
    }
    assert (y + offset) % 6 == (y + r) % 6 by {
      assert y + offset == 6 * q + (y + r);
    }
  }

  /** A byte by its top two bits, middle four bits and low two bits. */
  lemma ByteSplit(b: byte)
    ensures b / 64 < 4 && b == 64 * (b / 64) + 4 * ((b / 4) % 16) + b % 4
  {
    var q := b / 4;
    assert b == 4 * q + b % 4;
    assert q == 16 * (q / 16) + q % 16;
    assert q / 16 == b / 64;
  }

  /** Under one seed, the three letters determine the byte: the seed
      offset is undone modulo 6 on the two-bit groups. */
  lemma ByteLettersInjective(b1: byte, b2: byte, seed: nat)
    requires seed < 36 && ByteLetters(b1, seed) == ByteLetters(b2, seed)
    ensures b1 == b2
  {
    var h1, m1, l1 := (b1 / 64) % 4, (b1 / 4) % 16, b1 % 4;
    var h2, m2, l2 := (b2 / 64) % 4, (b2 / 4) % 16, b2 % 4;
    assert ByteLetters(b1, seed)[0] == ByteLetters(b2, seed)[0];
    assert ByteLetters(b1, seed)[1] == ByteLetters(b2, seed)[1];
    assert ByteLetters(b1, seed)[2] == ByteLetters(b2, seed)[2];
    ShiftedVowel(h1, h2, seed);
    ConsonantIndex(m1, m2);
    ShiftedVowel(l1, l2, seed / 6);
    ByteSplit(b1);
    ByteSplit(b2);
  }

  /** The vowel of a two-bit value under an offset gives the value back. */
  lemma ShiftedVowel(x: nat, y: nat, offset: nat)
    requires x < 4 && y < 4 && VOWELS[(x + offset) % 6] == VOWELS[(y + offset) % 6]
    ensures x == y
  {
    VowelIndex((x + offset) % 6, (y + offset) % 6);
    ShiftedIndex(x, y, offset);
  }

  /** The tail letters determine the second byte of a pair. */
  lemma PairTailInjective(b1: byte, b2: byte)
    requires PairTail(b1) == PairTail(b2)
    ensures b1 == b2
  {
    assert PairTail(b1)[0] == PairTail(b2)[0] && PairTail(b1)[2] == PairTail(b2)[2];
    ConsonantIndex((b1 / 16) % 16, (b2 / 16) % 16);
    ConsonantIndex(b1 % 16, b2 % 16);
    assert b1 == 16 * ((b1 / 16) % 16) + b1 % 16;
    assert b2 == 16 * ((b2 / 16) % 16) + b2 % 16;
  }

  /** Under one seed, a tuple determines the bytes it carries. */
  lemma TupleInjective(d1: seq<byte>, d2: seq<byte>, i: nat, seed: nat)
    requires |d1| == |d2| && i < Rounds(|d1|) && seed < 36
    requires forall k :: 0 <= k < |Tuple(d1, i, seed)| ==> Tuple(d1, i, seed)[k] == Tuple(d2, i, seed)[k]
    ensures forall k :: 2 * i <= k < 2 * i + 2 && k < |d1| ==> d1[k] == d2[k]
  {
    var t1 := Tuple(d1, i, seed);
    var t2 := Tuple(d2, i, seed);
    if 2 * i < |d1| {
      assert t1[..3] == t2[..3];
      assert t1[..3] == ByteLetters(d1[2 * i], seed);
      assert t2[..3] == ByteLetters(d2[2 * i], seed);
      ByteLettersInjective(d1[2 * i], d2[2 * i], seed);
    }
    if 2 * i + 1 < |d1| {
      assert t1[3..] == t2[3..];
      assert t1[3..] == PairTail(d1[2 * i + 1]);
      assert t2[3..] == PairTail(d2[2 * i + 1]);
      PairTailInjective(d1[2 * i + 1], d2[2 * i + 1]);
    }
  }

  /** Equal renderings of digests of one length mean equal bytes before
      tuple i. */
  lemma {:induction false} BytesAgree(d1: seq<byte>, d2: seq<byte>, s: string, i: nat)
    requires |d1| == |d2| && i <= Rounds(|d1|) && IsBabble(d1, s) && IsBabble(d2, s)
    ensures forall k :: 0 <= k < 2 * i && k < |d1| ==> d1[k] == d2[k]
  {
    if i > 0 {
      var t := i - 1;
      BytesAgree(d1, d2, s, t);
      SeedAgree(d1, d2, t);
      var seed := SeedAt(d1, t);
      assert TupleAt(d1, s, t) && TupleAt(d2, s, t);
      TupleInjective(d1, d2, t, seed);
    }
  }

  /** The middle letter of the last tuple is 'x' exactly for an even
      number of bytes: consonant 16 appears nowhere else. */
  lemma ParityVisible(d: seq<byte>, s: string)
    requires IsBabble(d, s)
    ensures s[6 * (|d| / 2) + 2] == 'x' <==> |d| % 2 == 0
  {
    var i := |d| / 2;
    assert TupleAt(d, s, i);
    var t := Tuple(d, i, SeedAt(d, i));
    assert s[1 + 6 * i + 1] == t[1];
    if |d| % 2 != 0 {
      assert t[1] == CONSONANTS[(d[2 * i] / 4) % 16];
    }
  }

  /** The bubblebabble rendering determines the digest. */
  lemma BabbleInjective(d1: seq<byte>, d2: seq<byte>, s: string)
    requires IsBabble(d1, s) && IsBabble(d2, s)
    ensures d1 == d2
  {
    assert |d1| / 2 == |d2| / 2;
    ParityVisible(d1, s);
    ParityVisible(d2, s);
    assert |d1| == |d2|;
    BytesAgree(d1, d2, s, Rounds(|d1|));
  }

  /** Every position between the two 'x' lies in one tuple: p is
      1 + 6 * k + r for tuple k and a letter r of it. */
  lemma Cover(n: nat, p: nat)
    requires 1 <= p < BabbleLength(n) - 1
    ensures var k := (p - 1) / 6; var r := (p - 1) % 6;
      p == 1 + 6 * k + r && k < Rounds(n) && (k + 1 < Rounds(n) || r < 3)
  {
  }

  /** Two renderings of one digest agree on the letters of tuple k. */
  lemma TupleAgrees(d: seq<byte>, s1: string, s2: string, k: nat, r: nat)
    requires IsBabble(d, s1) && IsBabble(d, s2)
    requires k < Rounds(|d|) && (k + 1 < Rounds(|d|) || r < 3) && r < 6
    ensures 1 + 6 * k + r < |s1| && s1[1 + 6 * k + r] == s2[1 + 6 * k + r]
  {
    var t := Tuple(d, k, SeedAt(d, k));
    assert r < |t|;
    assert TupleAt(d, s1, k) && TupleAt(d, s2, k);
    assert s1[1 + 6 * k + r] == t[r] == s2[1 + 6 * k + r];
  }

  /** The rendering of a digest is unique: the tuples cover every
      position between the two 'x'. */
  lemma BabbleUnique(d: seq<byte>, s1: string, s2: string)
    requires IsBabble(d, s1) && IsBabble(d, s2)
    ensures s1 == s2
  {
    forall p | 1 <= p < |s1| - 1
      ensures s1[p] == s2[p]
    {
      Cover(|d|, p);
      TupleAgrees(d, s1, s2, (p - 1) / 6, (p - 1) % 6);
    }
  }

  /** A '-' sits inside each full tuple. */
  lemma BabbleDashes(d: seq<byte>, s: string, i: nat)
    requires IsBabble(d, s) && i < |d| / 2
    ensures s[6 * i + 5] == '-'
  {
    assert TupleAt(d, s, i);
    assert s[1 + 6 * i + 4] == Tuple(d, i, SeedAt(d, i))[4];
  }
}
