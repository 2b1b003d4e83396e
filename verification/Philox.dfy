/** The Philox 4x32-10 block function on 32-bit words, and the draws taken from it. */
module Philox {

  datatype Block = Block(w0: bv32, w1: bv32, w2: bv32, w3: bv32)

  datatype Key = Key(k0: bv32, k1: bv32)

  // ---------------------------------------------------------------- one round

  /** The two halves of a 64-bit product of words; the low half is the product modulo 2^32. */
  function HighProduct(m: bv32, c: bv32): bv32 { (((m as bv64) * (c as bv64)) >> 32) as bv32 }

  function LowProduct(m: bv32, c: bv32): bv32 { m * c }

  function Round(b: Block, k: Key): Block {
    Block(HighProduct(0xCD9E_8D57, b.w2) ^ b.w1 ^ k.k0, LowProduct(0xCD9E_8D57, b.w2),
          HighProduct(0xD251_1F53, b.w0) ^ b.w3 ^ k.k1, LowProduct(0xD251_1F53, b.w0))
  }

  function Unround(b: Block, k: Key): Block {
    var w0, w2 := LowProduct(0x991A_7CDB, b.w3), LowProduct(0x6D7C_AE67, b.w1);
    Block(w0, HighProduct(0xCD9E_8D57, w2) ^ b.w0 ^ k.k0, w2, HighProduct(0xD251_1F53, w0) ^ b.w2 ^ k.k1)
  }

  ghost predicate IsProduct(x: bv32, m: bv32, c: bv32) { x == m * c }

  lemma LowProductIs(m: bv32, c: bv32)
    ensures IsProduct(LowProduct(m, c), m, c)
  {
  }

  /** The multipliers are odd, so the low halves determine the word. */
  lemma FirstInverts(c: bv32)
    ensures LowProduct(0x991A_7CDB, LowProduct(0xD251_1F53, c)) == c
  {
    hide LowProduct, IsProduct;
    LowProductIs(0xD251_1F53, c);
    FirstInvertsWord(c, LowProduct(0xD251_1F53, c));
  }

  lemma FirstInvertsWord(c: bv32, x: bv32)
    requires IsProduct(x, 0xD251_1F53, c)
    ensures LowProduct(0x991A_7CDB, x) == c
  {
    hide LowProduct;
    FirstInvertsProduct(c);
  }

  lemma FirstInvertsProduct(c: bv32)
    ensures LowProduct(0x991A_7CDB, 0xD251_1F53 * c) == c
  {
  }

  lemma FirstInverted(c: bv32)
    ensures LowProduct(0xD251_1F53, LowProduct(0x991A_7CDB, c)) == c
  {
    hide LowProduct, IsProduct;
    LowProductIs(0x991A_7CDB, c);
    FirstInvertedWord(c, LowProduct(0x991A_7CDB, c));
  }

  lemma FirstInvertedWord(c: bv32, x: bv32)
    requires IsProduct(x, 0x991A_7CDB, c)
    ensures LowProduct(0xD251_1F53, x) == c
  {
    hide LowProduct;
    FirstInvertedProduct(c);
  }

  lemma FirstInvertedProduct(c: bv32)
    ensures LowProduct(0xD251_1F53, 0x991A_7CDB * c) == c
  {
  }

  lemma SecondInverts(c: bv32)
    ensures LowProduct(0x6D7C_AE67, LowProduct(0xCD9E_8D57, c)) == c
  {
    hide LowProduct, IsProduct;
    LowProductIs(0xCD9E_8D57, c);
    SecondInvertsWord(c, LowProduct(0xCD9E_8D57, c));
  }

  lemma SecondInvertsWord(c: bv32, x: bv32)
    requires IsProduct(x, 0xCD9E_8D57, c)
    ensures LowProduct(0x6D7C_AE67, x) == c
  {
    hide LowProduct;
    SecondInvertsProduct(c);
  }

  lemma SecondInvertsProduct(c: bv32)
    ensures LowProduct(0x6D7C_AE67, 0xCD9E_8D57 * c) == c
  {
  }

  lemma SecondInverted(c: bv32)
    ensures LowProduct(0xCD9E_8D57, LowProduct(0x6D7C_AE67, c)) == c
  {
    hide LowProduct, IsProduct;
    LowProductIs(0x6D7C_AE67, c);
    SecondInvertedWord(c, LowProduct(0x6D7C_AE67, c));
  }

  lemma SecondInvertedWord(c: bv32, x: bv32)
    requires IsProduct(x, 0x6D7C_AE67, c)
    ensures LowProduct(0xCD9E_8D57, x) == c
  {
    hide LowProduct;
    SecondInvertedProduct(c);
  }

  lemma SecondInvertedProduct(c: bv32)
    ensures LowProduct(0xCD9E_8D57, 0x6D7C_AE67 * c) == c
  {
  }

  lemma XorTwice(h: bv32, c: bv32, k: bv32)
    ensures h ^ (h ^ c ^ k) ^ k == c
  {
  }

  /** Each round is a bijection of blocks. */
  lemma RoundBijective(b: Block, k: Key)
    ensures Unround(Round(b, k), k) == b
    ensures Round(Unround(b, k), k) == b
  {
    hide Round, Unround;
    RoundThenBack(b, k);
    BackThenRound(b, k);
  }

  lemma RoundThenBack(b: Block, k: Key)
    ensures Unround(Round(b, k), k) == b
  {
    hide HighProduct, LowProduct;
    FirstInverts(b.w0);
    SecondInverts(b.w2);
    XorTwice(HighProduct(0xCD9E_8D57, b.w2), b.w1, k.k0);
    XorTwice(HighProduct(0xD251_1F53, b.w0), b.w3, k.k1);
  }

  lemma BackThenRound(b: Block, k: Key)
    ensures Round(Unround(b, k), k) == b
  {
    hide HighProduct, LowProduct;
    FirstInverted(b.w3);
    SecondInverted(b.w1);
    XorTwice(HighProduct(0xCD9E_8D57, LowProduct(0x6D7C_AE67, b.w1)), b.w0, k.k0);
    XorTwice(HighProduct(0xD251_1F53, LowProduct(0x991A_7CDB, b.w3)), b.w2, k.k1);
  }

  // ---------------------------------------------------------------- ten rounds

  function NextKey(k: Key): Key { Key(k.k0 + 0x9E37_79B9, k.k1 + 0xBB67_AE85) }

  function Rounds(b: Block, k: Key, n: nat): Block
    decreases n
  {
    if n == 0 then b else Rounds(Round(b, k), NextKey(k), n - 1)
  }

  function Unrounds(b: Block, k: Key, n: nat): Block
    decreases n
  {
    if n == 0 then b else Unround(Unrounds(b, NextKey(k), n - 1), k)
  }

  lemma {:induction false} RoundsBijective(b: Block, k: Key, n: nat)
    ensures Unrounds(Rounds(b, k, n), k, n) == b
    ensures Rounds(Unrounds(b, k, n), k, n) == b
    decreases n
  {
    hide Round, Unround;
    if n > 0 {
      RoundsBijective(Round(b, k), NextKey(k), n - 1);
      RoundBijective(b, k);
      var u := Unrounds(b, NextKey(k), n - 1);
      RoundsBijective(b, NextKey(k), n - 1);
      RoundBijective(u, k);
    }
  }

  const ROUNDS: nat := 10

  /** The block function. */
  function Cipher(b: Block, key: Key): Block { Rounds(b, key, ROUNDS) }

  // ---------------------------------------------------------------- draws

  function High(p: bv64): bv32 { (p >> 32) as bv32 }

  function Low(p: bv64): bv32 { (p & 0xFFFF_FFFF) as bv32 }

  /** The counter of a block ordinal. */
  function Counter(block: bv64): Block { Block(High(block), Low(block), 0, 0) }

  function Join(high: bv32, low: bv32): bv64 { ((high as bv64) << 32) | (low as bv64) }

  lemma JoinInverts(block: bv64, high: bv32, low: bv32)
    ensures Join(High(block), Low(block)) == block
    ensures High(Join(high, low)) == high && Low(Join(high, low)) == low
  {
  }

  /** Draw number `ordinal`: half of the block ordinal / 2. */
  function DrawOf(key: Key, ordinal: bv64): bv64 {
    var b := Cipher(Counter(ordinal >> 1), key);
    if ordinal & 1 == 0 then Join(b.w0, b.w1) else Join(b.w2, b.w3)
  }

  /** The generator: ten rounds rewriting the counter and the round key. */
  method Draw(key: Key, ordinal: bv64) returns (draw: bv64)
    ensures draw == DrawOf(key, ordinal)
  {
    hide Rounds;
    var counter := TenRounds(Counter(ordinal >> 1), key, ROUNDS);
    draw := if ordinal & 1 == 0 then Join(counter.w0, counter.w1) else Join(counter.w2, counter.w3);
  }

  method TenRounds(start: Block, key: Key, total: nat) returns (counter: Block)
    requires total > 0
    ensures counter == Rounds(start, key, total)
  {
    hide HighProduct, LowProduct, NextKey;
    counter := start;
    var roundKey := key;
    for roundIndex := 0 to total
      invariant roundIndex < total ==> Rounds(start, key, total) == Rounds(counter, roundKey, total - roundIndex)
      invariant roundIndex == total ==> Rounds(start, key, total) == counter
    {
      OneMoreRound(counter, roundKey, total - roundIndex);
      counter := Round(counter, roundKey);
      hide Rounds, Round;
      if roundIndex != total - 1 {
        roundKey := NextKey(roundKey);
      }
    }
  }

  lemma OneMoreRound(b: Block, k: Key, n: nat)
    requires n > 0
    ensures Rounds(b, k, n) == Rounds(Round(b, k), NextKey(k), n - 1)
    ensures n == 1 ==> Rounds(b, k, n) == Round(b, k)
  {
    hide Round, NextKey;
  }

  lemma ShiftsInvert(k: bv64)
    requires k < 0x8000_0000_0000_0000
    ensures (k << 1) >> 1 == k && ((k << 1) | 1) >> 1 == k
    ensures (k << 1) & 1 == 0 && ((k << 1) | 1) & 1 == 1
  {
  }

  /** The two draws of block k. */
  lemma DrawsOfBlock(key: Key, k: bv64)
    requires k < 0x8000_0000_0000_0000
    ensures var b := Cipher(Counter(k), key);
            DrawOf(key, k << 1) == Join(b.w0, b.w1) && DrawOf(key, (k << 1) | 1) == Join(b.w2, b.w3)
  {
    hide Cipher, Counter, Join;
    ShiftsInvert(k);
  }

  /** For every key, the two draws of a block determine it. */
  lemma BlockDrawsInjective(key: Key, j: bv64, k: bv64)
    requires j < 0x8000_0000_0000_0000 && k < 0x8000_0000_0000_0000
    requires DrawOf(key, j << 1) == DrawOf(key, k << 1) && DrawOf(key, (j << 1) | 1) == DrawOf(key, (k << 1) | 1)
    ensures j == k
  {
    hide DrawOf, Cipher, Counter, Join;
    DrawsOfBlock(key, j);
    DrawsOfBlock(key, k);
    SameBlock(key, j, k, Cipher(Counter(j), key), Cipher(Counter(k), key));
  }

  lemma SameBlock(key: Key, j: bv64, k: bv64, a: Block, b: Block)
    requires a == Cipher(Counter(j), key) && b == Cipher(Counter(k), key)
    requires Join(a.w0, a.w1) == Join(b.w0, b.w1) && Join(a.w2, a.w3) == Join(b.w2, b.w3)
    ensures j == k
  {
    hide Rounds, Unrounds, High, Low, Join;
    RoundsBijective(Counter(j), key, ROUNDS);
    RoundsBijective(Counter(k), key, ROUNDS);
    JoinInverts(j, a.w0, a.w1);
    JoinInverts(k, b.w0, b.w1);
    JoinInverts(j, a.w2, a.w3);
    JoinInverts(k, b.w2, b.w3);
  }

  // ---------------------------------------------------------------- known answers

  /** Two runs of rounds are one. */
  lemma {:induction false} RoundsCompose(b: Block, k: Key, m: nat, n: nat)
    ensures Rounds(b, k, m + n) == Rounds(Rounds(b, k, m), KeyAfter(k, m), n)
    decreases m
  {
    hide Round, NextKey;
    if m > 0 {
      RoundsCompose(Round(b, k), NextKey(k), m - 1, n);
    }
  }

  function KeyAfter(k: Key, m: nat): Key
    decreases m
  {
    if m == 0 then k else KeyAfter(NextKey(k), m - 1)
  }

  /** Ten rounds, from two halves. */
  lemma CipherIs(b: Block, k: Key, middle: Block, next: Key, end: Block)
    requires Rounds(b, k, 5) == middle && KeyAfter(k, 5) == next && Rounds(middle, next, 5) == end
    ensures Cipher(b, k) == end
  {
    hide Rounds, KeyAfter;
    RoundsCompose(b, k, 5, 5);
  }

  /** The published answer for a zero counter and key. */
  lemma ZeroVector()
    ensures Cipher(Block(0x0000_0000, 0x0000_0000, 0x0000_0000, 0x0000_0000), Key(0x0000_0000, 0x0000_0000))
         == Block(0x6627_E8D5, 0xE169_C58D, 0xBC57_AC4C, 0x9B00_DBD8)
  {
    var middle := Block(0xF104_46C0, 0xC841_128B, 0x23F4_3D26, 0x6CB9_F044);
    assert Rounds(Block(0x0000_0000, 0x0000_0000, 0x0000_0000, 0x0000_0000), Key(0x0000_0000, 0x0000_0000), 5)
        == middle;
    assert KeyAfter(Key(0x0000_0000, 0x0000_0000), 5) == Key(0x1715_609D, 0xA906_6899);
    assert Rounds(middle, Key(0x1715_609D, 0xA906_6899), 5)
        == Block(0x6627_E8D5, 0xE169_C58D, 0xBC57_AC4C, 0x9B00_DBD8);
    CipherIs(Block(0x0000_0000, 0x0000_0000, 0x0000_0000, 0x0000_0000), Key(0x0000_0000, 0x0000_0000), middle,
             Key(0x1715_609D, 0xA906_6899), Block(0x6627_E8D5, 0xE169_C58D, 0xBC57_AC4C, 0x9B00_DBD8));
  }

  /** The published answer for a counter and key of ones. */
  lemma OnesVector()
    ensures Cipher(Block(0xFFFF_FFFF, 0xFFFF_FFFF, 0xFFFF_FFFF, 0xFFFF_FFFF), Key(0xFFFF_FFFF, 0xFFFF_FFFF))
         == Block(0x408F_276D, 0x41C8_3B0E, 0xA20B_C7C6, 0x6D54_51FD)
  {
    var middle := Block(0x426F_04BD, 0x7FB6_4153, 0xE8B2_9022, 0x07AE_0473);
    assert Rounds(Block(0xFFFF_FFFF, 0xFFFF_FFFF, 0xFFFF_FFFF, 0xFFFF_FFFF), Key(0xFFFF_FFFF, 0xFFFF_FFFF), 5)
        == middle;
    assert KeyAfter(Key(0xFFFF_FFFF, 0xFFFF_FFFF), 5) == Key(0x1715_609C, 0xA906_6898);
    assert Rounds(middle, Key(0x1715_609C, 0xA906_6898), 5)
        == Block(0x408F_276D, 0x41C8_3B0E, 0xA20B_C7C6, 0x6D54_51FD);
    CipherIs(Block(0xFFFF_FFFF, 0xFFFF_FFFF, 0xFFFF_FFFF, 0xFFFF_FFFF), Key(0xFFFF_FFFF, 0xFFFF_FFFF), middle,
             Key(0x1715_609C, 0xA906_6898), Block(0x408F_276D, 0x41C8_3B0E, 0xA20B_C7C6, 0x6D54_51FD));
  }

  /** The published answer for the digits of pi. */
  lemma PiVector()
    ensures Cipher(Block(0x243F_6A88, 0x85A3_08D3, 0x1319_8A2E, 0x0370_7344), Key(0xA409_3822, 0x299F_31D0))
         == Block(0xD16C_FE09, 0x94FD_CCEB, 0x5001_E420, 0x2412_6EA1)
  {
    var middle := Block(0x450B_009C, 0x131E_3741, 0x9654_AAD8, 0xA9FC_AC94);
    assert Rounds(Block(0x243F_6A88, 0x85A3_08D3, 0x1319_8A2E, 0x0370_7344), Key(0xA409_3822, 0x299F_31D0), 5)
        == middle;
    assert KeyAfter(Key(0xA409_3822, 0x299F_31D0), 5) == Key(0xBB1E_98BF, 0xD2A5_9A69);
    assert Rounds(middle, Key(0xBB1E_98BF, 0xD2A5_9A69), 5)
        == Block(0xD16C_FE09, 0x94FD_CCEB, 0x5001_E420, 0x2412_6EA1);
    CipherIs(Block(0x243F_6A88, 0x85A3_08D3, 0x1319_8A2E, 0x0370_7344), Key(0xA409_3822, 0x299F_31D0), middle,
             Key(0xBB1E_98BF, 0xD2A5_9A69), Block(0xD16C_FE09, 0x94FD_CCEB, 0x5001_E420, 0x2412_6EA1));
  }

  /** Block 0 of the event-order stream. */
  lemma StreamBlock0()
    ensures Cipher(Block(0x0000_0000, 0x0000_0000, 0x0000_0000, 0x0000_0000), Key(0x2044_97C9, 0x221F_BF67))
         == Block(0x2258_5625, 0xD47A_C20B, 0x0390_75E0, 0xB498_01FA)
  {
    var middle := Block(0xDBB5_5D2C, 0x5893_8155, 0xA3BF_E6E9, 0x3452_0F48);
    assert Rounds(Block(0x0000_0000, 0x0000_0000, 0x0000_0000, 0x0000_0000), Key(0x2044_97C9, 0x221F_BF67), 5)
        == middle;
    assert KeyAfter(Key(0x2044_97C9, 0x221F_BF67), 5) == Key(0x3759_F866, 0xCB26_2800);
    assert Rounds(middle, Key(0x3759_F866, 0xCB26_2800), 5)
        == Block(0x2258_5625, 0xD47A_C20B, 0x0390_75E0, 0xB498_01FA);
    CipherIs(Block(0x0000_0000, 0x0000_0000, 0x0000_0000, 0x0000_0000), Key(0x2044_97C9, 0x221F_BF67), middle,
             Key(0x3759_F866, 0xCB26_2800), Block(0x2258_5625, 0xD47A_C20B, 0x0390_75E0, 0xB498_01FA));
  }

  /** Block 1 of the event-order stream. */
  lemma StreamBlock1()
    ensures Cipher(Block(0x0000_0000, 0x0000_0001, 0x0000_0000, 0x0000_0000), Key(0x2044_97C9, 0x221F_BF67))
         == Block(0x3A5A_2942, 0xE799_4FAB, 0x034A_810C, 0x34CB_23FE)
  {
    var middle := Block(0x0B90_CBD9, 0x4C49_393C, 0x0157_7CB9, 0x0779_5C5B);
    assert Rounds(Block(0x0000_0000, 0x0000_0001, 0x0000_0000, 0x0000_0000), Key(0x2044_97C9, 0x221F_BF67), 5)
        == middle;
    assert KeyAfter(Key(0x2044_97C9, 0x221F_BF67), 5) == Key(0x3759_F866, 0xCB26_2800);
    assert Rounds(middle, Key(0x3759_F866, 0xCB26_2800), 5)
        == Block(0x3A5A_2942, 0xE799_4FAB, 0x034A_810C, 0x34CB_23FE);
    CipherIs(Block(0x0000_0000, 0x0000_0001, 0x0000_0000, 0x0000_0000), Key(0x2044_97C9, 0x221F_BF67), middle,
             Key(0x3759_F866, 0xCB26_2800), Block(0x3A5A_2942, 0xE799_4FAB, 0x034A_810C, 0x34CB_23FE));
  }

  /** Block 2 of the event-order stream. */
  lemma StreamBlock2()
    ensures Cipher(Block(0x0000_0000, 0x0000_0002, 0x0000_0000, 0x0000_0000), Key(0x2044_97C9, 0x221F_BF67))
         == Block(0xA3D1_0E5C, 0x73FD_358D, 0xD32C_4DF9, 0xB998_80F7)
  {
    var middle := Block(0xC960_FCAD, 0x9326_7964, 0xAF90_4CD0, 0x3116_135D);
    assert Rounds(Block(0x0000_0000, 0x0000_0002, 0x0000_0000, 0x0000_0000), Key(0x2044_97C9, 0x221F_BF67), 5)
        == middle;
    assert KeyAfter(Key(0x2044_97C9, 0x221F_BF67), 5) == Key(0x3759_F866, 0xCB26_2800);
    assert Rounds(middle, Key(0x3759_F866, 0xCB26_2800), 5)
        == Block(0xA3D1_0E5C, 0x73FD_358D, 0xD32C_4DF9, 0xB998_80F7);
    CipherIs(Block(0x0000_0000, 0x0000_0002, 0x0000_0000, 0x0000_0000), Key(0x2044_97C9, 0x221F_BF67), middle,
             Key(0x3759_F866, 0xCB26_2800), Block(0xA3D1_0E5C, 0x73FD_358D, 0xD32C_4DF9, 0xB998_80F7));
  }

  /** Block 3 of the event-order stream. */
  lemma StreamBlock3()
    ensures Cipher(Block(0x0000_0000, 0x0000_0003, 0x0000_0000, 0x0000_0000), Key(0x2044_97C9, 0x221F_BF67))
         == Block(0xA050_FD4C, 0x6939_6CC8, 0x4E0D_5A3F, 0x1834_937D)
  {
    var middle := Block(0xE6DB_F97C, 0x9326_7964, 0xF106_140F, 0xBCEE_324C);
    assert Rounds(Block(0x0000_0000, 0x0000_0003, 0x0000_0000, 0x0000_0000), Key(0x2044_97C9, 0x221F_BF67), 5)
        == middle;
    assert KeyAfter(Key(0x2044_97C9, 0x221F_BF67), 5) == Key(0x3759_F866, 0xCB26_2800);
    assert Rounds(middle, Key(0x3759_F866, 0xCB26_2800), 5)
        == Block(0xA050_FD4C, 0x6939_6CC8, 0x4E0D_5A3F, 0x1834_937D);
    CipherIs(Block(0x0000_0000, 0x0000_0003, 0x0000_0000, 0x0000_0000), Key(0x2044_97C9, 0x221F_BF67), middle,
             Key(0x3759_F866, 0xCB26_2800), Block(0xA050_FD4C, 0x6939_6CC8, 0x4E0D_5A3F, 0x1834_937D));
  }

  lemma DrawIs(key: Key, block: bv64, b: Block)
    requires block < 0x8000_0000_0000_0000 && Cipher(Counter(block), key) == b
    ensures DrawOf(key, block << 1) == Join(b.w0, b.w1) && DrawOf(key, (block << 1) | 1) == Join(b.w2, b.w3)
  {
    hide Cipher, Counter, Join, DrawOf;
    DrawsOfBlock(key, block);
  }

  /** The first two draws of the zero key. */
  lemma ZeroKeyDraws()
    ensures DrawOf(Key(0, 0), 0) == 0x6627_E8D5_E169_C58D
    ensures DrawOf(Key(0, 0), 1) == 0xBC57_AC4C_9B00_DBD8
  {
    hide Cipher, DrawOf;
    ZeroVector();
    DrawIs(Key(0, 0), 0, Block(0x6627_E8D5, 0xE169_C58D, 0xBC57_AC4C, 0x9B00_DBD8));
  }

  /** The first seven draws of the event-order key. */
  lemma EventKeyDraws()
    ensures var key := Key(0x2044_97C9, 0x221F_BF67);
            && DrawOf(key, 0) == 0x2258_5625_D47A_C20B
            && DrawOf(key, 1) == 0x0390_75E0_B498_01FA
            && DrawOf(key, 2) == 0x3A5A_2942_E799_4FAB
            && DrawOf(key, 3) == 0x034A_810C_34CB_23FE
            && DrawOf(key, 4) == 0xA3D1_0E5C_73FD_358D
            && DrawOf(key, 5) == 0xD32C_4DF9_B998_80F7
            && DrawOf(key, 6) == 0xA050_FD4C_6939_6CC8
  {
    hide Cipher, DrawOf;
    var key := Key(0x2044_97C9, 0x221F_BF67);
    StreamBlock0();
    DrawIs(key, 0, Block(0x2258_5625, 0xD47A_C20B, 0x0390_75E0, 0xB498_01FA));
    StreamBlock1();
    DrawIs(key, 1, Block(0x3A5A_2942, 0xE799_4FAB, 0x034A_810C, 0x34CB_23FE));
    StreamBlock2();
    DrawIs(key, 2, Block(0xA3D1_0E5C, 0x73FD_358D, 0xD32C_4DF9, 0xB998_80F7));
    StreamBlock3();
    DrawIs(key, 3, Block(0xA050_FD4C, 0x6939_6CC8, 0x4E0D_5A3F, 0x1834_937D));
  }
}
