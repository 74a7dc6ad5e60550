/** Hash digests: 64 bytes, of which the volume uses the first `hlen`, compared and copied
    eight bytes at a time on a little-endian machine. */
module HashWords {
  import opened Types
  import Bits

  /** The number that bytes in memory stand for. */
  function Word(s: seq<Byte>): nat {
    if s == [] then 0 else s[0] as nat + 0x100 * Word(s[1..])
  }

  lemma {:induction false} WordBound(s: seq<Byte>)
    ensures Word(s) < Bits.Pow2(8 * |s|)
  {
    if s != [] {
      WordBound(s[1..]);
      EightMore(|s| - 1);
    }
  }

  lemma EightMore(n: nat)
    ensures Bits.Pow2(8 * (n + 1)) == 0x100 * Bits.Pow2(8 * n)
  {
    Bits.Pow2Sum(8, 8 * n);
    assert Bits.Pow2(4) == 16;
    Bits.Pow2Sum(4, 4);
  }

  lemma {:induction false} WordAppend(s: seq<Byte>, t: seq<Byte>)
    ensures Word(s + t) == Word(t) * Bits.Pow2(8 * |s|) + Word(s)
  {
    if s == [] {
      assert s + t == t;
      assert Bits.Pow2(0) == 1;
    } else {
      assert (s + t)[1..] == s[1..] + t;
      WordAppend(s[1..], t);
      EightMore(|s| - 1);
      Shift(Word(t), Bits.Pow2(8 * (|s| - 1)));
    }
  }

  lemma Shift(w: nat, p: nat)
    ensures 0x100 * (w * p) == w * (0x100 * p)
  {}

  /** Masking a word leaves its first bytes. */
  lemma WordMask(s: seq<Byte>, n: nat)
    requires n <= |s|
    ensures Bits.And(Word(s), Bits.Pow2(8 * n) - 1) == Word(s[..n])
  {
    hide Bits.And, Bits.Pow2, Word;
    assert s == s[..n] + s[n..];
    WordAppend(s[..n], s[n..]);
    WordBound(s[..n]);
    Bits.AndMask(Word(s), 8 * n);
    Bits.Arith.DivUnique(Word(s), Bits.Pow2(8 * n), Word(s[n..]), Word(s[..n]));
  }

  /** Words are equal exactly if their bytes are. */
  lemma {:induction false} WordInjective(s: seq<Byte>, t: seq<Byte>)
    requires |s| == |t|
    ensures Word(s) == Word(t) <==> s == t
  {
    if s != [] {
      WordInjective(s[1..], t[1..]);
      if Word(s) == Word(t) {
        assert s[0] == t[0];
        assert s == [s[0]] + s[1..] && t == [t[0]] + t[1..];
      }
    }
  }

  lemma Prefixes(s: seq<Byte>, t: seq<Byte>, i: nat, n: nat)
    requires i + n <= |s| == |t| && s[..i] == t[..i]
    ensures s[..i + n] == t[..i + n] <==> s[i..i + n] == t[i..i + n]
  {
    assert s[..i + n] == s[..i] + s[i..i + n] && t[..i + n] == t[..i] + t[i..i + n];
    if s[..i + n] == t[..i + n] {
      assert s[i..i + n] == s[..i + n][i..] && t[i..i + n] == t[..i + n][i..];
    }
  }

  /** `hash_compare`: 0 exactly if the digests agree in the bytes that are used. */
  method HashCompare(h0: Digest, h1: Digest, hlen: nat) returns (r: nat)
    requires hlen <= 64
    ensures r == 0 <==> h0[..hlen] == h1[..hlen]
  {
    hide Word, Bits.And, Bits.Pow2;
    var left := Bits.And(hlen, 7);
    Low3(hlen);
    var i := 0;
    while i < hlen - left
      invariant i <= hlen - left && i % 8 == 0 && h0[..i] == h1[..i]
    {
      WordInjective(h0[i..i + 8], h1[i..i + 8]);
      Prefixes(h0, h1, i, 8);
      if Word(h0[i..i + 8]) != Word(h1[i..i + 8]) {
        PrefixOfPrefix(h0, h1, i + 8, hlen);
        return 1;
      }
      i := i + 8;
    }
    if left != 0 {
      var mask := Bits.Pow2(8 * left) - 1;
      WordMask(h0[i..i + 8], left);
      WordMask(h1[i..i + 8], left);
      assert h0[i..i + 8][..left] == h0[i..i + left] && h1[i..i + 8][..left] == h1[i..i + left];
      WordInjective(h0[i..i + left], h1[i..i + left]);
      Prefixes(h0, h1, i, left);
      if Bits.And(Word(h0[i..i + 8]), mask) != Bits.And(Word(h1[i..i + 8]), mask) { return 1; }
    }
    r := 0;
  }

  lemma Low3(x: nat)
    ensures Bits.And(x, 7) == x % 8
  {
    assert Bits.Pow2(3) == 8;
    Bits.AndMask(x, 3);
  }

  lemma PrefixOfPrefix(s: seq<Byte>, t: seq<Byte>, i: nat, n: nat)
    requires i <= n <= |s| == |t| && s[..i] != t[..i]
    ensures s[..n] != t[..n]
  {
    assert s[..i] == s[..n][..i] && t[..i] == t[..n][..i];
  }

  ghost predicate Zero(s: seq<Byte>) {
    forall k :: 0 <= k < |s| ==> s[k] == 0
  }

  lemma {:induction false} WordZero(s: seq<Byte>)
    ensures Word(s) == 0 <==> Zero(s)
  {
    if s != [] {
      WordZero(s[1..]);
      assert forall k :: 1 <= k < |s| ==> s[k] == s[1..][k - 1];
    }
  }

  lemma ZeroSplit(s: seq<Byte>, i: nat, n: nat)
    requires i <= n <= |s|
    ensures Zero(s[..n]) <==> Zero(s[..i]) && Zero(s[i..n])
  {
    assert s[..n] == s[..i] + s[i..n];
    assert forall k :: 0 <= k < i ==> s[..i][k] == s[..n][k];
    assert forall k :: 0 <= k < n - i ==> s[i..n][k] == s[..n][i + k];
  }

  /** `hash_is_zero`. */
  method HashIsZero(h: Digest, hlen: nat) returns (zero: bool)
    requires hlen <= 64
    ensures zero <==> Zero(h[..hlen])
  {
    hide Word, Bits.And, Bits.Pow2;
    var left := Bits.And(hlen, 7);
    Low3(hlen);
    var i := 0;
    while i < hlen - left
      invariant i <= hlen - left && i % 8 == 0 && Zero(h[..i])
    {
      WordZero(h[i..i + 8]);
      ZeroSplit(h, i, i + 8);
      ZeroSplit(h, i + 8, hlen);
      if Word(h[i..i + 8]) != 0 { return false; }
      i := i + 8;
    }
    if left != 0 {
      WordMask(h[i..i + 8], left);
      assert h[i..i + 8][..left] == h[i..i + left];
      WordZero(h[i..i + left]);
      ZeroSplit(h, i, hlen);
      if Bits.And(Word(h[i..i + 8]), Bits.Pow2(8 * left) - 1) != 0 { return false; }
    }
    zero := true;
  }

  /** The bytes of a digest that decide its bucket. */
  function Deciding(hlen: nat): nat {
    if hlen < 4 then hlen else 4
  }

  lemma Constants(b: Byte)
    ensures Word([]) == 0 && Word([b]) == b as nat
    ensures Bits.Pow2(8 * 3) - 1 == 0x00FF_FFFF && Bits.Pow2(8 * 4) - 1 == 0xFFFF_FFFF
  {
    assert [b][1..] == [];
    Bits.Pow2Of31();
    assert Bits.Pow2(4) == 16;
    Bits.Pow2Sum(4, 4);
    Bits.Pow2Sum(8, 8);
    Bits.Pow2Sum(16, 8);
    assert Bits.Pow2(32) == 2 * Bits.Pow2(31);
  }

  /** `_htable_bkt_no`. The variable for long digests has 32 bits, so only the first four
      bytes count. */
  method BktNo(h: Digest, hlen: nat, nbBkts: nat) returns (b: nat)
    requires hlen <= 64 && 0 < nbBkts
    ensures b == Word(h[..Deciding(hlen)]) % nbBkts
  {
    hide Word, Bits.And, Bits.Pow2;
    WordMask(h[..4], 3);
    WordMask(h[..8], 4);
    assert h[..4][..3] == h[..3] && h[..8][..4] == h[..4] && h[..1] == [h[0]];
    Constants(h[0]);
    match hlen
    case 0 => return 0;
    case 1 => return h[0] as nat % nbBkts;
    case 2 => return Word(h[..2]) % nbBkts;
    case 3 => return Bits.And(Word(h[..4]), 0x00FF_FFFF) % nbBkts;
    case 4 => return Word(h[..4]) % nbBkts;
    case _ =>
      var h64 := Bits.And(Word(h[..8]), 0xFFFF_FFFF);
      return h64 % nbBkts;
  }

  // ---------------------------------------------------------------- writing digests

  /** The `n` lowest bytes of a word, as a store writes them. */
  function Bytes(w: nat, n: nat): (s: seq<Byte>)
    ensures |s| == n
  {
    if n == 0 then [] else [(w % 0x100) as Byte] + Bytes(w / 0x100, n - 1)
  }

  function Nul(n: nat): (s: seq<Byte>)
    ensures |s| == n
  {
    seq(n, _ => 0)
  }

  lemma {:induction false} BytesOfWord(s: seq<Byte>, n: nat)
    requires |s| <= n
    ensures Bytes(Word(s), n) == s + Nul(n - |s|)
  {
    hide Nul;
    if s != [] {
      var z := Nul(n - |s|);
      BytesOfWord(s[1..], n - 1);
      Bits.Arith.DivUnique(Word(s), 0x100, Word(s[1..]), s[0] as nat);
      assert s + z == [s[0]] + (s[1..] + z);
    } else if n > 0 {
      BytesOfWord(s, n - 1);
      NulNext(n);
      assert [] + Nul(n - 1) == Nul(n - 1);
    } else {
      NulNone();
    }
  }

  lemma NulNone()
    ensures Nul(0) == []
  {}

  lemma NulNext(n: nat)
    requires 0 < n
    ensures Nul(n) == [0] + Nul(n - 1)
  {}

  /** A digest in memory. */
  type Digest = s: seq<Byte> | |s| == 64 witness Nul(64)

  /** The bytes that writing a digest touches: whole words. */
  function Words(hlen: nat): nat {
    (hlen + 7) / 8 * 8
  }

  lemma WholeWords(hlen: nat)
    ensures Words(hlen) == if hlen % 8 == 0 then hlen else hlen - hlen % 8 + 8
  {}

  /** A digest after eight bytes were stored at `i`. */
  function Store(s: seq<Byte>, i: nat, w: seq<Byte>): seq<Byte>
    requires i + |w| <= |s|
  {
    s[..i] + w + s[i + |w|..]
  }

  lemma StoreNext(p: seq<Byte>, dst: seq<Byte>, w: seq<Byte>)
    requires |p| + |w| <= |dst|
    ensures Store(p + dst[|p|..], |p|, w) == p + w + dst[|p| + |w|..]
  {}

  lemma CopyWord(dst: seq<Byte>, src: seq<Byte>, i: nat)
    requires i + 8 <= |dst| == |src|
    ensures Store(src[..i] + dst[i..], i, Bytes(Word(src[i..i + 8]), 8)) == src[..i + 8] + dst[i + 8..]
  {
    hide Word, Bytes, Store;
    var w := src[i..i + 8];
    BytesOfWord(w, 8);
    StoreNext(src[..i], dst, w);
    assert w + Nul(0) == w && src[..i] + w == src[..i + 8];
  }

  lemma CopyTail(dst: seq<Byte>, src: seq<Byte>, i: nat, n: nat)
    requires n <= 8 && i + 8 <= |dst| == |src|
    ensures var w := Bits.And(Word(src[i..i + 8]), Bits.Pow2(8 * n) - 1);
      Store(src[..i] + dst[i..], i, Bytes(w, 8)) == src[..i + n] + Nul(8 - n) + dst[i + 8..]
  {
    hide Word, Bytes, Bits.And, Bits.Pow2, Store, Nul;
    var z := src[i..i + n];
    WordMask(src[i..i + 8], n);
    assert src[i..i + 8][..n] == z;
    BytesOfWord(z, 8);
    StoreNext(src[..i], dst, z + Nul(8 - n));
    assert src[..i] + (z + Nul(8 - n)) == src[..i + n] + Nul(8 - n);
  }

  /** What `hash_copy` leaves: the bytes that are used, and zeros that fill up the last
      word. */
  function CopyOf(dst: Digest, src: Digest, hlen: nat): (r: Digest)
    requires hlen <= 64
    ensures r[..hlen] == src[..hlen]
  {
    src[..hlen] + Nul(Words(hlen) - hlen) + dst[Words(hlen)..]
  }

  /** What `hash_clear` leaves. */
  function ClearOf(h: Digest, hlen: nat): (r: Digest)
    requires hlen <= 64
    ensures r[..hlen] == Nul(hlen)
  {
    Nul(Words(hlen)) + h[Words(hlen)..]
  }

  /** `hash_copy`. */
  method HashCopy(dst: Digest, src: Digest, hlen: nat) returns (r: Digest)
    requires hlen <= 64
    ensures r == CopyOf(dst, src, hlen)
  {
    hide Word, Words, Bytes, Bits.And, Bits.Pow2, Store, Nul;
    var left := Bits.And(hlen, 7);
    Low3(hlen);
    WholeWords(hlen);
    var i := 0;
    r := dst;
    assert src[..0] + dst[0..] == dst;
    while i < hlen - left
      invariant i <= hlen - left && i % 8 == 0
      invariant r == src[..i] + dst[i..]
    {
      CopyWord(dst, src, i);
      r := Store(r, i, Bytes(Word(src[i..i + 8]), 8));
      i := i + 8;
    }
    if left != 0 {
      CopyTail(dst, src, i, left);
      r := Store(r, i, Bytes(Bits.And(Word(src[i..i + 8]), Bits.Pow2(8 * left) - 1), 8));
    } else {
      assert src[..hlen] + Nul(0) == src[..hlen];
    }
  }

  lemma ClearWord(h: seq<Byte>, i: nat)
    requires i + 8 <= |h|
    ensures Store(Nul(i) + h[i..], i, Bytes(0, 8)) == Nul(i + 8) + h[i + 8..]
  {
    hide Bytes, Store;
    BytesOfWord([], 8);
    assert [] + Nul(8) == Nul(8);
    StoreNext(Nul(i), h, Nul(8));
    assert Nul(i) + Nul(8) == Nul(i + 8);
  }

  /** `hash_clear`. */
  method HashClear(h: Digest, hlen: nat) returns (r: Digest)
    requires hlen <= 64
    ensures r == ClearOf(h, hlen)
  {
    hide Bytes, Store, Nul, Words;
    WholeWords(hlen);
    var i := 0;
    r := h;
    NulNone();
    assert [] + h == h;
    while i < hlen
      invariant i <= Words(hlen) && i % 8 == 0
      invariant r == Nul(i) + h[i..]
    {
      ClearWord(h, i);
      r := Store(r, i, Bytes(0, 8));
      i := i + 8;
    }
  }
}
