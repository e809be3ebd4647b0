/** The hash of the code, FNV-1a over 64 bits, on strings of ASCII; and two of
    the code's lock key strings that it does not tell apart. */
module KeyHash {
  import opened Packing
  import opened LockKeys

  type Byte = b: nat | b < 256

  function XorByte(a: Byte, b: Byte): Byte {
    (a as bv8 ^ b as bv8) as nat
  }

  function Mix(sum: nat, byte: Byte): nat {
    (sum - sum % 256 + XorByte(sum % 256, byte)) * 0x100_0000_01b3 % 0x1_0000_0000_0000_0000
  }

  function Fnv(bytes: seq<Byte>): nat {
    if bytes == [] then 0xcbf2_9ce4_8422_2325 else Mix(Fnv(bytes[..|bytes| - 1]), bytes[|bytes| - 1])
  }

  /** int64(h.Sum64()) */
  function AsInt64(sum: nat): int {
    if sum < 0x8000_0000_0000_0000 then sum else sum - 0x1_0000_0000_0000_0000
  }

  predicate Ascii(s: string) {
    forall c <- s :: c < '\U{80}'
  }

  function ByteOf(s: string, i: nat): Byte
    requires Ascii(s) && i < |s|
  {
    assert s[i] in s;
    s[i] as nat
  }

  /** The bytes of a string of ASCII. */
  function Bytes(s: string): (bytes: seq<Byte>)
    requires Ascii(s)
    ensures |bytes| == |s| && forall i :: 0 <= i < |s| ==> bytes[i] == s[i] as nat
  {
    seq(|s|, i requires 0 <= i < |s| => ByteOf(s, i))
  }

  /** A hash that agrees with the code's on ASCII. */
  ghost predicate IsKeyHash(h: Hash) {
    forall s | Ascii(s) :: h(s) == AsInt64(Fnv(Bytes(s)))
  }

  // ----- the sums of two strings, byte by byte -----

  lemma FnvOfNext(bytes: seq<Byte>, i: nat)
    requires i < |bytes|
    ensures Fnv(bytes[..i + 1]) == Mix(Fnv(bytes[..i]), bytes[i])
  {
    hide Mix;
    assert bytes[..i + 1][..i] == bytes[..i];
  }

  lemma MixOf(high: nat, low: Byte, byte: Byte)
    ensures Mix(high * 256 + low, byte) == (high * 256 + XorByte(low, byte)) * 0x100_0000_01b3 % 0x1_0000_0000_0000_0000
  {
    hide XorByte;
    assert (high * 256 + low) % 256 == low;
  }

  lemma Wrap(x: nat, carry: nat, next: nat)
    requires x == carry * 0x1_0000_0000_0000_0000 + next && next < 0x1_0000_0000_0000_0000
    ensures x % 0x1_0000_0000_0000_0000 == next
  {}

  /** From the sum before byte `i`, in its high and low parts, to the sum after it. */
  lemma FnvAt(bytes: seq<Byte>, i: nat, high: nat, low: Byte, mixed: Byte, carry: nat, next: nat)
    requires i < |bytes| && Fnv(bytes[..i]) == high * 256 + low && XorByte(low, bytes[i]) == mixed
    requires (high * 256 + mixed) * 0x100_0000_01b3 == carry * 0x1_0000_0000_0000_0000 + next
    requires next < 0x1_0000_0000_0000_0000
    ensures Fnv(bytes[..i + 1]) == next
  {
    hide XorByte, Mix, Fnv;
    FnvOfNext(bytes, i);
    MixOf(high, low, bytes[i]);
    Wrap((high * 256 + mixed) * 0x100_0000_01b3, carry, next);
  }

  lemma FnvEmpty(bytes: seq<Byte>)
    ensures Fnv(bytes[..0]) == 0xcbf2_9ce4_8422_2325
  {}

  lemma XorsOfLeaf()
    ensures XorByte(37, 76) == 105
    ensures XorByte(107, 58) == 81
    ensures XorByte(163, 120) == 219
    ensures XorByte(33, 115) == 82
    ensures XorByte(86, 101) == 51
    ensures XorByte(169, 53) == 156
    ensures XorByte(20, 106) == 126
    ensures XorByte(26, 103) == 125
    ensures XorByte(103, 122) == 29
    ensures XorByte(71, 118) == 49
    ensures XorByte(67, 99) == 32
    ensures XorByte(96, 52) == 84
    ensures XorByte(188, 51) == 143
    ensures XorByte(253, 100) == 153
    ensures XorByte(251, 97) == 154
    ensures XorByte(174, 124) == 210
    ensures XorByte(214, 116) == 162
  {}

  lemma FnvOfStartLeaf(bytes: seq<Byte>)
    requires bytes == [76, 58, 120, 115, 101, 53, 106, 103, 122, 118, 99, 52, 51, 100, 97, 124, 116]
    ensures Fnv(bytes[..8]) == 0x38eb8baec14f3a67
  {
    hide Fnv, Mix, XorByte;
    XorsOfLeaf();
    FnvEmpty(bytes);
    FnvAt(bytes, 0, 0xcbf29ce4842223, 37, 105, 0xcbf29ce5de, 0xaf64014c86022b6b);
    FnvAt(bytes, 1, 0xaf64014c86022b, 107, 81, 0xaf64014db0, 0x9198607b5af9aa3);
    FnvAt(bytes, 2, 0x9198607b5af9a, 163, 219, 0x9198607c5, 0x25f99a19b9642221);
    FnvAt(bytes, 3, 0x25f99a19b96422, 33, 82, 0x25f99a19f9, 0xeb432bb605265156);
    FnvAt(bytes, 4, 0xeb432bb6052651, 86, 51, 0xeb432bb794, 0xe974794ac01bf9a9);
    FnvAt(bytes, 5, 0xe974794ac01bf9, 169, 156, 0xe974794c4c, 0xcce3b6046f892414);
    FnvAt(bytes, 6, 0xcce3b6046f8924, 20, 126, 0xcce3b605cb, 0xb012c7898609021a);
    FnvAt(bytes, 7, 0xb012c789860902, 26, 125, 0xb012c78ab1, 0x38eb8baec14f3a67);
  }

  lemma FnvOfRestLeaf(bytes: seq<Byte>)
    requires bytes == [76, 58, 120, 115, 101, 53, 106, 103, 122, 118, 99, 52, 51, 100, 97, 124, 116]
    requires Fnv(bytes[..8]) == 0x38eb8baec14f3a67
    ensures Fnv(bytes) == 0xe465d6b65cdc6f46
  {
    hide Fnv, Mix, XorByte;
    XorsOfLeaf();
    FnvAt(bytes, 8, 0x38eb8baec14f3a, 103, 29, 0x38eb8baf22, 0x77876f2799fbf47);
    FnvAt(bytes, 9, 0x77876f2799fbf, 71, 49, 0x77876f286, 0x51714f04aa71e043);
    FnvAt(bytes, 10, 0x51714f04aa71e0, 67, 32, 0x51714f0534, 0xd56964ed9f7fd660);
    FnvAt(bytes, 11, 0xd56964ed9f7fd6, 96, 84, 0xd56964ef0a, 0x21ecd3c6063930bc);
    FnvAt(bytes, 12, 0x21ecd3c6063930, 188, 143, 0x21ecd3c63f, 0xde9c687c932d82fd);
    FnvAt(bytes, 13, 0xde9c687c932d82, 253, 153, 0xde9c687e0d, 0x714824ae1654e9fb);
    FnvAt(bytes, 14, 0x714824ae1654e9, 251, 154, 0x714824aed6, 0xd27fedcff248f0ae);
    FnvAt(bytes, 15, 0xd27fedcff248f0, 174, 210, 0xd27fedd157, 0xf851ea58b1f134d6);
    FnvAt(bytes, 16, 0xf851ea58b1f134, 214, 162, 0xf851ea5a57, 0xe465d6b65cdc6f46);
    assert bytes[..17] == bytes;
  }

  lemma BytesOfLeaf()
    ensures Bytes("L:xse5jgzvc43da|t") == [76, 58, 120, 115, 101, 53, 106, 103, 122, 118, 99, 52, 51, 100, 97, 124, 116]
  {}

  lemma FnvOfLeaf()
    ensures Fnv(Bytes("L:xse5jgzvc43da|t")) == 0xe465d6b65cdc6f46
  {
    hide Fnv, Bytes;
    BytesOfLeaf();
    FnvOfStartLeaf(Bytes("L:xse5jgzvc43da|t"));
    FnvOfRestLeaf(Bytes("L:xse5jgzvc43da|t"));
  }

  lemma XorsOfIntent()
    ensures XorByte(37, 84) == 113
    ensures XorByte(3, 58) == 57
    ensures XorByte(219, 103) == 188
    ensures XorByte(116, 49) == 69
    ensures XorByte(63, 112) == 79
    ensures XorByte(61, 122) == 71
    ensures XorByte(165, 110) == 203
    ensures XorByte(241, 117) == 132
    ensures XorByte(76, 102) == 42
    ensures XorByte(94, 118) == 40
    ensures XorByte(248, 113) == 137
    ensures XorByte(203, 53) == 254
    ensures XorByte(154, 50) == 168
    ensures XorByte(120, 118) == 14
    ensures XorByte(202, 104) == 162
  {}

  lemma FnvOfStartIntent(bytes: seq<Byte>)
    requires bytes == [84, 58, 103, 49, 112, 122, 110, 117, 102, 118, 113, 53, 50, 118, 104]
    ensures Fnv(bytes[..7]) == 0x3647a436808b5df1
  {
    hide Fnv, Mix, XorByte;
    XorsOfIntent();
    FnvEmpty(bytes);
    FnvAt(bytes, 0, 0xcbf29ce4842223, 37, 113, 0xcbf29ce5de, 0xaf64094c86023903);
    FnvAt(bytes, 1, 0xaf64094c860239, 3, 57, 0xaf64094db0, 0x9350607b5c73bdb);
    FnvAt(bytes, 2, 0x9350607b5c73b, 219, 188, 0x9350607c5, 0x6c54fb19e18a8074);
    FnvAt(bytes, 3, 0x6c54fb19e18a80, 116, 69, 0x6c54fb1a99, 0x9ee6f1fa3e57f53f);
    FnvAt(bytes, 4, 0x9ee6f1fa3e57f5, 63, 79, 0x9ee6f1fb4c, 0x5a627b37ef75d53d);
    FnvAt(bytes, 5, 0x5a627b37ef75d5, 61, 71, 0x5a627b3889, 0xb2ca70be53967a5);
    FnvAt(bytes, 6, 0xb2ca70be53967, 165, 203, 0xb2ca70bf8, 0x3647a436808b5df1);
  }

  lemma FnvOfRestIntent(bytes: seq<Byte>)
    requires bytes == [84, 58, 103, 49, 112, 122, 110, 117, 102, 118, 113, 53, 50, 118, 104]
    requires Fnv(bytes[..7]) == 0x3647a436808b5df1
    ensures Fnv(bytes) == 0xe465d6b65cdc6f46
  {
    hide Fnv, Mix, XorByte;
    XorsOfIntent();
    FnvAt(bytes, 7, 0x3647a436808b5d, 241, 132, 0x3647a436dc, 0xc7198c9c6ccfe74c);
    FnvAt(bytes, 8, 0xc7198c9c6ccfe7, 76, 42, 0xc7198c9dbf, 0x205117cce545cc5e);
    FnvAt(bytes, 9, 0x205117cce545cc, 94, 40, 0x205117cd1c, 0x2f9799299599e7f8);
    FnvAt(bytes, 10, 0x2f9799299599e7, 248, 137, 0x2f979929e6, 0x7880caa934846dcb);
    FnvAt(bytes, 11, 0x7880caa934846d, 203, 254, 0x7880caaa01, 0x47465b843d06e69a);
    FnvAt(bytes, 12, 0x47465b843d06e6, 154, 168, 0x47465b84b6, 0x237429b3b2b9ef78);
    FnvAt(bytes, 13, 0x237429b3b2b9ef, 120, 14, 0x237429b3ee, 0xf851ea58b1f134ca);
    FnvAt(bytes, 14, 0xf851ea58b1f134, 202, 162, 0xf851ea5a57, 0xe465d6b65cdc6f46);
    assert bytes[..15] == bytes;
  }

  lemma BytesOfIntent()
    ensures Bytes("T:g1pznufvq52vh") == [84, 58, 103, 49, 112, 122, 110, 117, 102, 118, 113, 53, 50, 118, 104]
  {}

  lemma FnvOfIntent()
    ensures Fnv(Bytes("T:g1pznufvq52vh")) == 0xe465d6b65cdc6f46
  {
    hide Fnv, Bytes;
    BytesOfIntent();
    FnvOfStartIntent(Bytes("T:g1pznufvq52vh"));
    FnvOfRestIntent(Bytes("T:g1pznufvq52vh"));
  }

  /** A sum that is published for this hash: that of the letter a. */
  lemma FnvOfLetter(bytes: seq<Byte>)
    requires bytes == [97]
    ensures Fnv(bytes) == 0xaf63_dc4c_8601_ec8c
  {
    hide Fnv, Mix;
    FnvEmpty(bytes);
    FnvAt(bytes, 0, 0xcbf29ce4842223, 37, 68, 0xcbf29ce5de, 0xaf63dc4c8601ec8c);
    assert bytes[..1] == bytes;
  }

  lemma KeyStrings()
    ensures LeafString("xse5jgzvc43da", "t") == "L:xse5jgzvc43da|t" && "T:" + "g1pznufvq52vh" == "T:g1pznufvq52vh"
  {}

  lemma KeyStringsAscii()
    ensures Ascii("L:xse5jgzvc43da|t") && Ascii("T:g1pznufvq52vh")
  {}

  /** The code's hash gives a leaf key and a type intent key the same value. */
  lemma LeafMeetsIntent(h: Hash)
    requires IsKeyHash(h)
    ensures ValidTagToken("t")
    ensures LeafKey(h, "xse5jgzvc43da", "t") == TypeIntentKey(h, "g1pznufvq52vh")
  {
    hide Fnv, Bytes, Ascii, LeafString;
    KeyStrings();
    KeyStringsAscii();
    FnvOfLeaf();
    FnvOfIntent();
  }
}
