/**
  The stable transaction id: 64-bit FNV-1a over a fixed layout of the four parts.
  Words are integers below 2^64; bytes are integers below 256.
 */
module TxnId {

  const WORD: nat := 0x1_0000_0000_0000_0000
  const OFFSET_BASIS: nat := 0xcbf2_9ce4_8422_2325
  const PRIME: nat := 0x100_0000_01b3
  /** The multiplicative inverse of PRIME modulo 2^64. */
  const INVERSE: nat := 0xce96_5057_aff6_957b

  type Byte = b: int | 0 <= b < 256
  type Word = w: int | 0 <= w < WORD

  /** Exclusive-or of the low n bits. */
  function XorBits(a: nat, b: nat, n: nat): (x: nat)
    ensures x < PowerOf(2, n)
  {
    if n == 0 then 0 else (a + b) % 2 + 2 * XorBits(a / 2, b / 2, n - 1)
  }

  function PowerOf(base: nat, n: nat): (p: nat)
    ensures base > 0 ==> p > 0
  {
    if n == 0 then 1 else base * PowerOf(base, n - 1)
  }

  function XorByte(a: Byte, b: Byte): Byte {
    EightBits();
    XorBits(a, b, 8)
  }

  lemma EightBits()
    ensures PowerOf(2, 8) == 256
  {
    assert PowerOf(2, 4) == 16;
  }

  /** Exclusive-or with a byte touches only the low byte of the word. */
  function Xor(h: Word, b: Byte): Word {
    h / 256 * 256 + XorByte(h % 256, b)
  }

  function HashByte(h: Word, b: Byte): Word {
    Xor(h, b) * PRIME % WORD
  }

  function HashFrom(h: Word, bytes: seq<Byte>): Word {
    if bytes == [] then h else HashByte(HashFrom(h, bytes[..|bytes| - 1]), bytes[|bytes| - 1])
  }

  function Hash(bytes: seq<Byte>): Word {
    HashFrom(OFFSET_BASIS, bytes)
  }

  /** Little-endian bytes of the low 8n bits. */
  function LittleEndian(w: nat, n: nat): (bytes: seq<Byte>)
    ensures |bytes| == n
  {
    if n == 0 then [] else [w % 256] + LittleEndian(w / 256, n - 1)
  }

  /** The bytes that are hashed, in order. */
  function Layout(user: Word, refType: seq<Byte>, refId: Word, salt: Word): seq<Byte> {
    LittleEndian(user, 8) + [0] + refType + [0] + LittleEndian(refId, 8) + LittleEndian(salt, 8)
  }

  function StableTxnId(user: Word, refType: seq<Byte>, refId: Word, salt: Word): Word {
    var id := Hash(Layout(user, refType, refId, salt));
    if id == 0 then 1 else id
  }

  class Fnv64a {
    var state: Word

    constructor ()
      ensures state == OFFSET_BASIS
    {
      state := OFFSET_BASIS;
    }

    method Write(bytes: seq<Byte>)
      modifies this
      ensures state == HashFrom(old(state), bytes)
    {
      for i := 0 to |bytes|
        invariant state == HashFrom(old(state), bytes[..i])
      {
        assert bytes[..i + 1][..i] == bytes[..i];
        state := Xor(state, bytes[i]);
        state := state * PRIME % WORD;
      }
      assert bytes[..|bytes|] == bytes;
    }
  }

  method PutUint64(buf: array<Byte>, w: Word)
    requires buf.Length == 8
    modifies buf
    ensures buf[..] == LittleEndian(w, 8)
  {
    var v: nat := w;
    for i := 0 to 8
      invariant buf[..i] + LittleEndian(v, 8 - i) == LittleEndian(w, 8)
    {
      ghost var rest := LittleEndian(v, 8 - i);
      assert rest == [v % 256] + LittleEndian(v / 256, 8 - i - 1);
      ghost var before := buf[..i];
      buf[i] := v % 256;
      v := v / 256;
      assert buf[..i + 1] == before + [rest[0]];
    }
    assert buf[..8] == buf[..];
  }

  /** One buffer is reused for the three words. */
  method PointsStableTxnID(user: Word, refType: seq<Byte>, refId: Word, salt: Word) returns (id: Word)
    ensures id == StableTxnId(user, refType, refId, salt) && id != 0
    ensures var h := Hash(LittleEndian(user, 8) + [0] + refType + [0] + LittleEndian(refId, 8) + LittleEndian(salt, 8));
            id == if h == 0 then 1 else h
  {
    var h := new Fnv64a();
    var buf := new Byte[8];
    PutUint64(buf, user);
    h.Write(buf[..]);
    h.Write([0]);
    h.Write(refType);
    h.Write([0]);
    PutUint64(buf, refId);
    h.Write(buf[..]);
    PutUint64(buf, salt);
    h.Write(buf[..]);
    LayoutInParts(user, refType, refId, salt);
    id := if h.state == 0 then 1 else h.state;
  }

  lemma {:induction false} HashConcat(h: Word, a: seq<Byte>, b: seq<Byte>)
    ensures HashFrom(h, a + b) == HashFrom(HashFrom(h, a), b)
  {
    if b == [] {
      assert a + b == a;
    } else {
      var n := |b| - 1;
      HashConcat(h, a, b[..n]);
      assert (a + b)[..|a| + n] == a + b[..n];
    }
  }

  lemma LayoutInParts(user: Word, refType: seq<Byte>, refId: Word, salt: Word)
    ensures Hash(Layout(user, refType, refId, salt)) ==
      HashFrom(HashFrom(HashFrom(HashFrom(HashFrom(HashFrom(OFFSET_BASIS,
        LittleEndian(user, 8)), [0]), refType), [0]), LittleEndian(refId, 8)), LittleEndian(salt, 8))
  {
    var a, b, c := LittleEndian(user, 8), LittleEndian(refId, 8), LittleEndian(salt, 8);
    HashConcat(OFFSET_BASIS, a, [0]);
    HashConcat(OFFSET_BASIS, a + [0], refType);
    HashConcat(OFFSET_BASIS, a + [0] + refType, [0]);
    HashConcat(OFFSET_BASIS, a + [0] + refType + [0], b);
    HashConcat(OFFSET_BASIS, a + [0] + refType + [0] + b, c);
  }

  // ---------- the published values ----------

  lemma HashOneMore(bytes: seq<Byte>, b: Byte)
    ensures Hash(bytes + [b]) == HashByte(Hash(bytes), b)
  {
    assert (bytes + [b])[..|bytes|] == bytes;
  }

  lemma FirstXor()
    ensures XorBits(0x25, 0x61, 8) == 0x44
  {
    assert XorBits(0, 0, 1) == 0;
    assert XorBits(0, 1, 2) == 1;
    assert XorBits(1, 3, 3) == 2;
    assert XorBits(2, 6, 4) == 4;
    assert XorBits(4, 12, 5) == 8;
    assert XorBits(9, 24, 6) == 17;
    assert XorBits(18, 48, 7) == 34;
  }

  /** The published FNV-1a values of the empty string and of "a". */
  lemma PublishedHashes()
    ensures Hash([]) == 0xcbf2_9ce4_8422_2325
    ensures Hash([0x61]) == 0xaf63_dc4c_8601_ec8c
  {
    hide XorBits;
    FirstXor();
    assert Hash([]) == OFFSET_BASIS;
    assert [] + [0x61] == [0x61];
    HashOneMore([], 0x61);
  }

  /** The number that bytes stand for, the first one counting least. */
  function ValueOf(bytes: seq<Byte>): nat {
    if bytes == [] then 0 else bytes[0] + 256 * ValueOf(bytes[1..])
  }

  /** Lowest byte first: the bytes stand for the number they were made of. */
  lemma {:induction false} LittleEndianRoundTrip(w: nat, n: nat)
    requires w < PowerOf(256, n)
    ensures ValueOf(LittleEndian(w, n)) == w
  {
    if n > 0 {
      LittleEndianRoundTrip(w / 256, n - 1);
      assert LittleEndian(w, n)[1..] == LittleEndian(w / 256, n - 1);
    }
  }

  // ---------- the layout forgets nothing ----------

  lemma {:induction false} LittleEndianInjective(v: nat, w: nat, n: nat)
    requires LittleEndian(v, n) == LittleEndian(w, n)
    requires v < PowerOf(256, n) && w < PowerOf(256, n)
    ensures v == w
  {
    if n > 0 {
      var a, b := LittleEndian(v, n), LittleEndian(w, n);
      assert a[0] == v % 256 && b[0] == w % 256;
      assert a[1..] == LittleEndian(v / 256, n - 1) && b[1..] == LittleEndian(w / 256, n - 1);
      LittleEndianInjective(v / 256, w / 256, n - 1);
    }
  }

  lemma WordIsEightBytes()
    ensures PowerOf(256, 8) == WORD
  {
    assert PowerOf(256, 4) == 0x1_0000_0000;
  }

  /** Different parts always give different bytes, whatever bytes the reference type holds. */
  lemma LayoutInjective(user: Word, refType: seq<Byte>, refId: Word, salt: Word,
                        user': Word, refType': seq<Byte>, refId': Word, salt': Word)
    requires Layout(user, refType, refId, salt) == Layout(user', refType', refId', salt')
    ensures user == user' && refType == refType' && refId == refId' && salt == salt'
  {
    var s, s' := Layout(user, refType, refId, salt), Layout(user', refType', refId', salt');
    var n := |refType|;
    assert |s| == 26 + n && |s'| == 26 + |refType'|;
    assert s[..8] == LittleEndian(user, 8) && s'[..8] == LittleEndian(user', 8);
    assert s[9..9 + n] == refType && s'[9..9 + n] == refType';
    assert s[10 + n..18 + n] == LittleEndian(refId, 8) && s'[10 + n..18 + n] == LittleEndian(refId', 8);
    assert s[18 + n..] == LittleEndian(salt, 8) && s'[18 + n..] == LittleEndian(salt', 8);
    WordIsEightBytes();
    LittleEndianInjective(user, user', 8);
    LittleEndianInjective(refId, refId', 8);
    LittleEndianInjective(salt, salt', 8);
  }

  // ---------- one changed byte always changes the hash ----------

  lemma InverseOfPrime()
    ensures PRIME * INVERSE % WORD == 1
  {
  }

  /** Multiplying by the prime loses nothing modulo 2^64. */
  lemma TimesPrimeInjective(x: Word, y: Word)
    requires x * PRIME % WORD == y * PRIME % WORD
    ensures x == y
  {
    InverseOfPrime();
    var k := PRIME * INVERSE / WORD;
    var q := x * PRIME / WORD - y * PRIME / WORD;
    assert (x - y) * PRIME == q * WORD;
    assert (x - y) * PRIME * INVERSE == (x - y) * (PRIME * INVERSE);
    assert q * WORD * INVERSE == (x - y) * (1 + k * WORD);
    var r := q * INVERSE - (x - y) * k;
    assert x - y == r * WORD;
  }

  lemma SplitByte(q: nat, x: Byte)
    ensures (q * 256 + x) / 256 == q && (q * 256 + x) % 256 == x
  {
  }

  lemma XorInjective(h: Word, g: Word, b: Byte, c: Byte)
    requires Xor(h, b) == Xor(g, c)
    ensures b == c ==> h == g
    ensures h == g ==> b == c
  {
    SplitByte(h / 256, XorByte(h % 256, b));
    SplitByte(g / 256, XorByte(g % 256, c));
    EightBits();
    if b == c {
      XorBitsInjective(b, h % 256, g % 256, 8);
    } else if h == g {
      XorBitsInjective(h % 256, b, c, 8);
    }
  }

  lemma {:induction false} XorBitsInjective(a: nat, b: nat, c: nat, n: nat)
    requires b < PowerOf(2, n) && c < PowerOf(2, n)
    requires XorBits(a, b, n) == XorBits(a, c, n) || XorBits(b, a, n) == XorBits(c, a, n)
    ensures b == c
  {
    if n > 0 {
      XorLowBit(a, b, c, n);
      XorBitsInjective(a / 2, b / 2, c / 2, n - 1);
    }
  }

  /** Equal results have equal low bits, and equal results on the rest. */
  lemma XorLowBit(a: nat, b: nat, c: nat, n: nat)
    requires n > 0 && (XorBits(a, b, n) == XorBits(a, c, n) || XorBits(b, a, n) == XorBits(c, a, n))
    ensures b % 2 == c % 2
    ensures XorBits(a / 2, b / 2, n - 1) == XorBits(a / 2, c / 2, n - 1) || XorBits(b / 2, a / 2, n - 1) == XorBits(c / 2, a / 2, n - 1)
  {
    hide XorBits, LowXor;
    SameParity(a, b, c);
    SameParity(a, c, b);
    XorUnfolds(a, b, n);
    XorUnfolds(a, c, n);
    XorUnfolds(b, a, n);
    XorUnfolds(c, a, n);
  }

  function LowXor(a: nat, b: nat): (p: nat)
    ensures p < 2
  {
    (a + b) % 2
  }

  lemma XorUnfolds(a: nat, b: nat, n: nat)
    requires n > 0
    ensures XorBits(a, b, n) == LowXor(a, b) + 2 * XorBits(a / 2, b / 2, n - 1)
  {
  }

  lemma SameParity(a: nat, b: nat, c: nat)
    ensures LowXor(a, b) == LowXor(b, a)
    ensures LowXor(a, b) == LowXor(a, c) ==> b % 2 == c % 2
  {
  }

  lemma {:induction false} HashFromInjective(h: Word, g: Word, bytes: seq<Byte>)
    requires HashFrom(h, bytes) == HashFrom(g, bytes)
    ensures h == g
  {
    if bytes != [] {
      var n := |bytes| - 1;
      var x, y := HashFrom(h, bytes[..n]), HashFrom(g, bytes[..n]);
      TimesPrimeInjective(Xor(x, bytes[n]), Xor(y, bytes[n]));
      XorInjective(x, y, bytes[n], bytes[n]);
      HashFromInjective(h, g, bytes[..n]);
    }
  }

  /** Strings that differ in exactly one byte never collide. */
  lemma OneByteNeverCollides(s: seq<Byte>, i: nat, b: Byte)
    requires i < |s| && s[i] != b
    ensures Hash(s) != Hash(s[i := b])
  {
    var t := s[i := b];
    assert s == s[..i] + [s[i]] + s[i + 1..] && t == s[..i] + [b] + s[i + 1..];
    HashConcat(OFFSET_BASIS, s[..i] + [s[i]], s[i + 1..]);
    HashConcat(OFFSET_BASIS, s[..i] + [b], s[i + 1..]);
    HashConcat(OFFSET_BASIS, s[..i], [s[i]]);
    HashConcat(OFFSET_BASIS, s[..i], [b]);
    var h := HashFrom(OFFSET_BASIS, s[..i]);
    if Hash(s) == Hash(t) {
      HashFromInjective(HashFrom(h, [s[i]]), HashFrom(h, [b]), s[i + 1..]);
      assert HashFrom(h, [s[i]]) == HashByte(HashFrom(h, []), s[i]) && HashFrom(h, [b]) == HashByte(HashFrom(h, []), b);
      TimesPrimeInjective(Xor(h, s[i]), Xor(h, b));
      XorInjective(h, h, s[i], b);
    }
  }

  /** So ids whose layouts differ in one byte agree only through the remap of 0 to 1. */
  lemma OneByteIdsCollideIff(user: Word, refType: seq<Byte>, refId: Word, salt: Word,
                             user': Word, refType': seq<Byte>, refId': Word, salt': Word, i: nat, b: Byte)
    requires var s := Layout(user, refType, refId, salt);
             i < |s| && s[i] != b && Layout(user', refType', refId', salt') == s[i := b]
    ensures StableTxnId(user, refType, refId, salt) == StableTxnId(user', refType', refId', salt') <==>
            var h, h' := Hash(Layout(user, refType, refId, salt)), Hash(Layout(user', refType', refId', salt'));
            (h == 0 && h' == 1) || (h == 1 && h' == 0)
  {
    OneByteNeverCollides(Layout(user, refType, refId, salt), i, b);
  }
}
