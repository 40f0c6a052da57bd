/** Published digests, as independent checks of every constant, rotation and load of the two hashes. */
module SampleMessages {
  import opened Streaming

  /** "Nobody inspects the spammish repetition" */
  predicate Spammish(m: seq<byte>) {
    && |m| == 39
    && m[0] == 78 && m[1] == 111 && m[2] == 98 && m[3] == 111 && m[4] == 100 && m[5] == 121 && m[6] == 32
    && m[7] == 105 && m[8] == 110 && m[9] == 115 && m[10] == 112 && m[11] == 101 && m[12] == 99 && m[13] == 116
    && m[14] == 115 && m[15] == 32 && m[16] == 116 && m[17] == 104 && m[18] == 101 && m[19] == 32
    && m[20] == 115 && m[21] == 112 && m[22] == 97 && m[23] == 109 && m[24] == 109 && m[25] == 105
    && m[26] == 115 && m[27] == 104 && m[28] == 32 && m[29] == 114 && m[30] == 101 && m[31] == 112
    && m[32] == 101 && m[33] == 116 && m[34] == 105 && m[35] == 116 && m[36] == 105 && m[37] == 111
    && m[38] == 110
  }

  /** "abcdefghijklmnopqrstuvwxyz" */
  predicate Alphabet(m: seq<byte>) {
    && |m| == 26
    && m[0] == 97 && m[1] == 98 && m[2] == 99 && m[3] == 100 && m[4] == 101 && m[5] == 102 && m[6] == 103
    && m[7] == 104 && m[8] == 105 && m[9] == 106 && m[10] == 107 && m[11] == 108 && m[12] == 109 && m[13] == 110
    && m[14] == 111 && m[15] == 112 && m[16] == 113 && m[17] == 114 && m[18] == 115 && m[19] == 116
    && m[20] == 117 && m[21] == 118 && m[22] == 119 && m[23] == 120 && m[24] == 121 && m[25] == 122
  }
}

module XxHash64Vectors {
  import opened SampleMessages
  import opened Streaming
  import opened XxHash64

  const LANES := Lanes(0x37245127A4067E4B, 0x1B302B0A818F92CF, 0xCD62D843D0580FCA, 0x1C16E43EF2142A4A)

  lemma SpammishLoads(m: seq<byte>)
    requires Spammish(m)
    ensures Load8(m[..32], 0) == 0x692079646F626F4E
    ensures Load8(m[..32], 8) == 0x207374636570736E
    ensures Load8(m[..32], 16) == 0x6D61707320656874
    ensures Load8(m[..32], 24) == 0x706572206873696D
  {
  }

  lemma SpammishStripe(b: seq<byte>)
    requires Load8(b, 0) == 0x692079646F626F4E
    requires Load8(b, 8) == 0x207374636570736E
    requires Load8(b, 16) == 0x6D61707320656874
    requires Load8(b, 24) == 0x706572206873696D
    ensures Stripe(Start(0), b) == LANES
  {
    assert Round(0x60EA27EEADC0B5D6, 0x692079646F626F4E) == 0x37245127A4067E4B;
    assert Round(0xC2B2AE3D27D4EB4F, 0x207374636570736E) == 0x1B302B0A818F92CF;
    assert Round(0x0, 0x6D61707320656874) == 0xCD62D843D0580FCA;
    assert Round(0x61C8864E7A143579, 0x706572206873696D) == 0x1C16E43EF2142A4A;
  }

  lemma SpammishMerges()
    ensures Merge(0xC4DE2CE639FB8154, LANES.a) == 0x30D40DDD00AEA144
    ensures Merge(0x30D40DDD00AEA144, LANES.b) == 0xE5A1F095BF498698
    ensures Merge(0xE5A1F095BF498698, LANES.c) == 0xF9CEE721E748096D
    ensures Merge(0xF9CEE721E748096D, LANES.d) == 0x84F22C421A11A8B5
  {
  }

  lemma SpammishConverges()
    ensures Converge(LANES) == 0x84F22C421A11A8B5
  {
    SpammishMerges();
    var acc: word := 0xC4DE2CE639FB8154;
    assert RotateLeft(LANES.a, 1) + RotateLeft(LANES.b, 7) + RotateLeft(LANES.c, 12) + RotateLeft(LANES.d, 18) == acc;
  }

  lemma SpammishLiteral()
    ensures (39 as word) == 39
  {
  }

  lemma SpammishLength()
    ensures Length(39) == 39
  {
    assert 39 % 0x1_0000_0000_0000_0000 == 39;
    SpammishLiteral();
  }

  lemma AlphabetLiteral()
    ensures (26 as word) == 26
  {
  }

  lemma AlphabetLength()
    ensures Length(26) == 26
  {
    assert 26 % 0x1_0000_0000_0000_0000 == 26;
    AlphabetLiteral();
  }

  lemma SpammishTailEats(b: seq<byte>)
    requires |b| == 4 && b[0] == 101 && b[1] == 116 && b[2] == 105 && b[3] == 116
    ensures Eat4(0x84F22C421A11A8DC, b) == 0x9FCA0F5D0AAA110F
    ensures Eat1(0x9FCA0F5D0AAA110F, [105]) == 0x769671546F21BA14
    ensures Eat1(0x769671546F21BA14, [111]) == 0xEAE9B643C5F94E52
    ensures Eat1(0xEAE9B643C5F94E52, [110]) == 0x1D0A47483B37CC24
  {
  }

  lemma SpammishTail(r: seq<byte>)
    requires |r| == 7 && r[0] == 101 && r[1] == 116 && r[2] == 105 && r[3] == 116 && r[4] == 105
             && r[5] == 111 && r[6] == 110
    ensures Drain(XXH64.bites, 0x84F22C421A11A8DC, r) == 0x1D0A47483B37CC24
  {
    var by4, by1 := XXH64.bites[1..], XXH64.bites[2..];
    assert by4[1..] == by1;
    SpammishTailEats(r[..4]);
    DrainShort(XXH64.bites, 0x84F22C421A11A8DC, r);
    DrainStep(by4, 0x84F22C421A11A8DC, r);
    DrainShort(by4, 0x9FCA0F5D0AAA110F, r[4..]);
    assert r[4..][..1] == [105] && r[4..][1..] == r[5..];
    assert r[5..][..1] == [111] && r[5..][1..] == r[6..];
    assert r[6..][..1] == [110] && r[6..][1..] == [];
    DrainStep(by1, 0x9FCA0F5D0AAA110F, r[4..]);
    DrainStep(by1, 0x769671546F21BA14, r[5..]);
    DrainStep(by1, 0xEAE9B643C5F94E52, r[6..]);
    DrainNothing(by1, 0x1D0A47483B37CC24);
  }

  lemma SpammishAvalanche()
    ensures Avalanche(0x1D0A47483B37CC24) == 0xFBCEA83C8A378BF1
  {
  }

  /** A message of one stripe and seven bytes. */
  lemma {:induction false} SpammishDigest(m: seq<byte>)
    requires Spammish(m)
    ensures WellFormed(XXH64) && Digest(XXH64, 0, m) == 0xFBCEA83C8A378BF1
  {
    Xxh64WellFormed();
    SpammishLoads(m);
    SpammishStripe(m[..32]);
    SpammishConverges();
    SpammishLength();
    SpammishTail(m[32..]);
    SpammishAvalanche();
    AbsorbStep(Stripe, 32, Start(0), m);
    AbsorbShort(Stripe, 32, LANES, m[32..]);
  }

  lemma AlphabetLoads(m: seq<byte>)
    requires Alphabet(m)
    ensures Load8(m[0..8], 0) == 0x6867666564636261
    ensures Load8(m[8..16], 0) == 0x706F6E6D6C6B6A69
    ensures Load8(m[16..24], 0) == 0x7877767574737271
  {
  }

  lemma AlphabetEats(m: seq<byte>)
    requires Alphabet(m)
    ensures Eat8(0x27D4EB2F165667DF, m[0..8]) == 0xF6826F82065AD1DF
    ensures Eat8(0xF6826F82065AD1DF, m[8..16]) == 0x3AFF6C85B70CB9F6
    ensures Eat8(0x3AFF6C85B70CB9F6, m[16..24]) == 0x42586F3D9DD13A98
    ensures Eat1(0x42586F3D9DD13A98, [121]) == 0x997728E493715569
    ensures Eat1(0x997728E493715569, [122]) == 0xF20ADF76FA26A570
  {
    AlphabetLoads(m);
    assert Round(0, 0x6867666564636261) == 0xD5829FA70A0FCC74;
    assert Round(0, 0x706F6E6D6C6B6A69) == 0x3725DD279C3E63AB;
    assert Round(0, 0x7877767574737271) == 0xFA91A0F6A881305B;
  }

  lemma AlphabetDrain(m: seq<byte>)
    requires Alphabet(m)
    ensures Drain(XXH64.bites, 0x27D4EB2F165667DF, m) == 0xF20ADF76FA26A570
  {
    var by8, by4, by1 := XXH64.bites, XXH64.bites[1..], XXH64.bites[2..];
    assert by4[1..] == by1;
    AlphabetEats(m);
    assert m[8..][8..] == m[16..] && m[16..][8..] == m[24..] && m[25..][1..] == [];
    assert m[8..][..8] == m[8..16] && m[16..][..8] == m[16..24];
    assert m[24..][..1] == [121] && m[24..][1..] == m[25..] && m[25..][..1] == [122];
    DrainStep(by8, 0x27D4EB2F165667DF, m);
    DrainStep(by8, 0xF6826F82065AD1DF, m[8..]);
    DrainStep(by8, 0x3AFF6C85B70CB9F6, m[16..]);
    DrainShort(by8, 0x42586F3D9DD13A98, m[24..]);
    DrainShort(by4, 0x42586F3D9DD13A98, m[24..]);
    DrainStep(by1, 0x42586F3D9DD13A98, m[24..]);
    DrainStep(by1, 0x997728E493715569, m[25..]);
    DrainNothing(by1, 0xF20ADF76FA26A570);
  }

  lemma AlphabetAvalanche()
    ensures Avalanche(0xF20ADF76FA26A570) == 0xCFE1F278FA89835C
  {
  }

  /** A message shorter than a stripe, with eight-byte steps. */
  lemma AlphabetDigest(m: seq<byte>)
    requires Alphabet(m)
    ensures WellFormed(XXH64) && Digest(XXH64, 0, m) == 0xCFE1F278FA89835C
  {
    Xxh64WellFormed();
    AbsorbShort(Stripe, 32, Start(0), m);
    AlphabetDrain(m);
    AlphabetLength();
    AlphabetAvalanche();
  }
}

module XxHash32Vectors {
  import opened SampleMessages
  import opened Streaming
  import opened XxHash32

  const LANES1 := Lanes(0x46A700A, 0xBFADF8E3, 0x5B32B4AA, 0x137E5555)
  const LANES2 := Lanes(0x719A836E, 0x514C1DE8, 0x97FA4BA2, 0x242A97A2)

  lemma SpammishLoads(m: seq<byte>)
    requires Spammish(m)
    ensures Load4(m[..16], 0) == 0x6F626F4E
    ensures Load4(m[..16], 4) == 0x69207964
    ensures Load4(m[..16], 8) == 0x6570736E
    ensures Load4(m[..16], 12) == 0x20737463
    ensures Load4(m[16..32], 0) == 0x20656874
    ensures Load4(m[16..32], 4) == 0x6D617073
    ensures Load4(m[16..32], 8) == 0x6873696D
    ensures Load4(m[16..32], 12) == 0x70657220
  {
  }

  lemma SpammishStripes(m: seq<byte>)
    requires Spammish(m)
    ensures Stripe(Start(0), m[..16]) == LANES1 && Stripe(LANES1, m[16..32]) == LANES2
  {
    SpammishLoads(m);
    assert Round(0x24234428, 0x6F626F4E) == 0x46A700A;
    assert Round(0x85EBCA77, 0x69207964) == 0xBFADF8E3;
    assert Round(0x0, 0x6570736E) == 0x5B32B4AA;
    assert Round(0x61C8864F, 0x20737463) == 0x137E5555;
    assert Round(0x46A700A, 0x20656874) == 0x719A836E;
    assert Round(0xBFADF8E3, 0x6D617073) == 0x514C1DE8;
    assert Round(0x5B32B4AA, 0x6873696D) == 0x97FA4BA2;
    assert Round(0x137E5555, 0x70657220) == 0x242A97A2;
  }

  lemma SpammishConverges()
    ensures Length(39) + Converge(LANES2) == 0x8C86B554
  {
    assert Length(39) == 39;
  }

  lemma SpammishTailEats(b: seq<byte>)
    requires |b| == 4 && b[0] == 101 && b[1] == 116 && b[2] == 105 && b[3] == 116
    ensures Eat4(0x8C86B554, b) == 0x9B51544
    ensures Eat1(0x9B51544, [105]) == 0xCDEFD3C9
    ensures Eat1(0xCDEFD3C9, [111]) == 0x3852087B
    ensures Eat1(0x3852087B, [110]) == 0xB3A7011B
  {
  }

  lemma SpammishTail(r: seq<byte>)
    requires |r| == 7 && r[0] == 101 && r[1] == 116 && r[2] == 105 && r[3] == 116 && r[4] == 105
             && r[5] == 111 && r[6] == 110
    ensures Drain(XXH32.bites, 0x8C86B554, r) == 0xB3A7011B
  {
    var by1 := XXH32.bites[1..];
    SpammishTailEats(r[..4]);
    DrainStep(XXH32.bites, 0x8C86B554, r);
    DrainShort(XXH32.bites, 0x9B51544, r[4..]);
    assert r[4..][..1] == [105] && r[4..][1..] == r[5..];
    assert r[5..][..1] == [111] && r[5..][1..] == r[6..];
    assert r[6..][..1] == [110] && r[6..][1..] == [];
    DrainStep(by1, 0x9B51544, r[4..]);
    DrainStep(by1, 0xCDEFD3C9, r[5..]);
    DrainStep(by1, 0x3852087B, r[6..]);
    DrainNothing(by1, 0xB3A7011B);
  }

  lemma SpammishAvalanche()
    ensures Avalanche(0xB3A7011B) == 0xE2293B2F
  {
  }

  /** A message of two stripes and seven bytes. */
  lemma {:induction false} SpammishDigest(m: seq<byte>)
    requires Spammish(m)
    ensures WellFormed(XXH32) && Digest(XXH32, 0, m) == 0xE2293B2F
  {
    Xxh32WellFormed();
    SpammishStripes(m);
    SpammishConverges();
    SpammishTail(m[32..]);
    SpammishAvalanche();
    assert m[16..][..16] == m[16..32] && m[16..][16..] == m[32..];
    AbsorbStep(Stripe, 16, Start(0), m);
    AbsorbStep(Stripe, 16, LANES1, m[16..]);
    AbsorbShort(Stripe, 16, LANES2, m[32..]);
  }

  /** "abcde", of less than one stripe. */
  predicate Letters(m: seq<byte>) {
    |m| == 5 && m[0] == 97 && m[1] == 98 && m[2] == 99 && m[3] == 100 && m[4] == 101
  }

  lemma LettersEat(m: seq<byte>)
    requires Letters(m)
    ensures Length(5) + (0 + PRIME5) == 0x165667B6
    ensures Eat4(0x165667B6, m[..4]) == 0x4B855207 && Eat1(0x4B855207, [101]) == 0xCD1D741C
    ensures Avalanche(0xCD1D741C) == 0x9738F19B
  {
    assert Length(5) == 5;
  }

  /** A short message: its length counts too. */
  lemma {:induction false} LettersDigest(m: seq<byte>)
    requires Letters(m)
    ensures WellFormed(XXH32) && Digest(XXH32, 0, m) == 0x9738F19B
  {
    Xxh32WellFormed();
    LettersEat(m);
    AbsorbShort(Stripe, 16, Start(0), m);
    assert m[4..] == [101] && m[4..][..1] == [101] && m[4..][1..] == [];
    DrainStep(XXH32.bites, 0x165667B6, m);
    DrainShort(XXH32.bites, 0x4B855207, m[4..]);
    DrainStep(XXH32.bites[1..], 0x4B855207, m[4..]);
    DrainNothing(XXH32.bites[1..], 0xCD1D741C);
  }
}
