/**
 * The six logical functions of SHA-2 (crypto/sha2.c; section 4.1 of FIPS 180-4), by what they do to the bits of a word:
 * the first two choose and take the majority, the others add up three bits of the word for each bit of the result.
 */
module Sha2Logic {
  import opened Sha2Instances

  // ----- 32-bit words -----

  lemma Back32(w: bv32)
    ensures (w as u32) as bv32 == w
  {
  }

  /** Where `x` has ones the result is `y`, and `z` elsewhere. */
  lemma ChChooses32(x: bv32, y: bv32, z: bv32)
    ensures ChBits32(x, y, z) & x == y & x && ChBits32(x, y, z) & !x == z & !x
  {
  }

  /** Where `y` and `z` agree the result is theirs, and `x` elsewhere. */
  lemma MajIsMajority32(x: bv32, y: bv32, z: bv32)
    ensures var r := MajBits32(x, y, z); r & !(y ^ z) == y & !(y ^ z) && r & (y ^ z) == x & (y ^ z)
  {
  }

  /** The functions on words are those on their bits. */
  lemma ChOnBits32(x: bv32, y: bv32, z: bv32)
    ensures Ch32(x as u32, y as u32, z as u32) as bv32 == ChBits32(x, y, z)
  {
    Back32(x);
    Back32(y);
    Back32(z);
    Back32(ChBits32(x, y, z));
  }

  lemma MajOnBits32(x: bv32, y: bv32, z: bv32)
    ensures Maj32(x as u32, y as u32, z as u32) as bv32 == MajBits32(x, y, z)
  {
    Back32(x);
    Back32(y);
    Back32(z);
    Back32(MajBits32(x, y, z));
  }

  predicate OneBit32(m: bv32) {
    m != 0 && m & (m - 1) == 0
  }

  predicate Has32(w: bv32, m: bv32) {
    w & m != 0
  }

  lemma HasSum32(a: bv32, b: bv32, m: bv32)
    requires OneBit32(m)
    ensures Has32(a ^ b, m) == (Has32(a, m) != Has32(b, m))
  {
  }

  lemma HasSumOfThree32(a: bv32, b: bv32, c: bv32, m: bv32)
    requires OneBit32(m)
    ensures Has32(a ^ b ^ c, m) == ((Has32(a, m) != Has32(b, m)) != Has32(c, m))
  {
    HasSum32(a, b, m);
    HasSum32(a ^ b, c, m);
  }

  lemma Turn32By2(w: bv32, m: bv32)
    ensures Has32(w.RotateRight(2), m) == Has32(w, m.RotateLeft(2))
  {
  }

  lemma Turn32By13(w: bv32, m: bv32)
    ensures Has32(w.RotateRight(13), m) == Has32(w, m.RotateLeft(13))
  {
  }

  lemma Turn32By22(w: bv32, m: bv32)
    ensures Has32(w.RotateRight(22), m) == Has32(w, m.RotateLeft(22))
  {
  }

  lemma BigSigma0Adds32(w: bv32, m: bv32)
    requires OneBit32(m)
    ensures Has32(BigSigma0Bits32(w), m)
      == ((Has32(w, m.RotateLeft(2)) != Has32(w, m.RotateLeft(13))) != Has32(w, m.RotateLeft(22)))
  {
    Turn32By2(w, m);
    Turn32By13(w, m);
    Turn32By22(w, m);
    HasSumOfThree32(w.RotateRight(2), w.RotateRight(13), w.RotateRight(22), m);
  }

  lemma BigSigma0OnBits32(w: bv32)
    ensures BigSigma0x32(w as u32) as bv32 == BigSigma0Bits32(w)
  {
    Back32(w);
    Back32(BigSigma0Bits32(w));
  }

  lemma Turn32By6(w: bv32, m: bv32)
    ensures Has32(w.RotateRight(6), m) == Has32(w, m.RotateLeft(6))
  {
  }

  lemma Turn32By11(w: bv32, m: bv32)
    ensures Has32(w.RotateRight(11), m) == Has32(w, m.RotateLeft(11))
  {
  }

  lemma Turn32By25(w: bv32, m: bv32)
    ensures Has32(w.RotateRight(25), m) == Has32(w, m.RotateLeft(25))
  {
  }

  lemma BigSigma1Adds32(w: bv32, m: bv32)
    requires OneBit32(m)
    ensures Has32(BigSigma1Bits32(w), m)
      == ((Has32(w, m.RotateLeft(6)) != Has32(w, m.RotateLeft(11))) != Has32(w, m.RotateLeft(25)))
  {
    Turn32By6(w, m);
    Turn32By11(w, m);
    Turn32By25(w, m);
    HasSumOfThree32(w.RotateRight(6), w.RotateRight(11), w.RotateRight(25), m);
  }

  lemma BigSigma1OnBits32(w: bv32)
    ensures BigSigma1x32(w as u32) as bv32 == BigSigma1Bits32(w)
  {
    Back32(w);
    Back32(BigSigma1Bits32(w));
  }

  lemma Turn32By7(w: bv32, m: bv32)
    ensures Has32(w.RotateRight(7), m) == Has32(w, m.RotateLeft(7))
  {
  }

  lemma Turn32By18(w: bv32, m: bv32)
    ensures Has32(w.RotateRight(18), m) == Has32(w, m.RotateLeft(18))
  {
  }

  lemma Shift32By3(w: bv32, m: bv32)
    ensures Has32(w >> 3, m) == Has32(w, m << 3)
  {
  }

  lemma SmallSigma0Adds32(w: bv32, m: bv32)
    requires OneBit32(m)
    ensures Has32(SmallSigma0Bits32(w), m)
      == ((Has32(w, m.RotateLeft(7)) != Has32(w, m.RotateLeft(18))) != Has32(w, m << 3))
  {
    Turn32By7(w, m);
    Turn32By18(w, m);
    Shift32By3(w, m);
    HasSumOfThree32(w.RotateRight(7), w.RotateRight(18), w >> 3, m);
  }

  lemma SmallSigma0OnBits32(w: bv32)
    ensures SmallSigma0x32(w as u32) as bv32 == SmallSigma0Bits32(w)
  {
    Back32(w);
    Back32(SmallSigma0Bits32(w));
  }

  lemma Turn32By17(w: bv32, m: bv32)
    ensures Has32(w.RotateRight(17), m) == Has32(w, m.RotateLeft(17))
  {
  }

  lemma Turn32By19(w: bv32, m: bv32)
    ensures Has32(w.RotateRight(19), m) == Has32(w, m.RotateLeft(19))
  {
  }

  lemma Shift32By10(w: bv32, m: bv32)
    ensures Has32(w >> 10, m) == Has32(w, m << 10)
  {
  }

  lemma SmallSigma1Adds32(w: bv32, m: bv32)
    requires OneBit32(m)
    ensures Has32(SmallSigma1Bits32(w), m)
      == ((Has32(w, m.RotateLeft(17)) != Has32(w, m.RotateLeft(19))) != Has32(w, m << 10))
  {
    Turn32By17(w, m);
    Turn32By19(w, m);
    Shift32By10(w, m);
    HasSumOfThree32(w.RotateRight(17), w.RotateRight(19), w >> 10, m);
  }

  lemma SmallSigma1OnBits32(w: bv32)
    ensures SmallSigma1x32(w as u32) as bv32 == SmallSigma1Bits32(w)
  {
    Back32(w);
    Back32(SmallSigma1Bits32(w));
  }

  // ----- 64-bit words -----

  lemma Back64(w: bv64)
    ensures (w as u64) as bv64 == w
  {
  }

  /** Where `x` has ones the result is `y`, and `z` elsewhere. */
  lemma ChChooses64(x: bv64, y: bv64, z: bv64)
    ensures ChBits64(x, y, z) & x == y & x && ChBits64(x, y, z) & !x == z & !x
  {
  }

  /** Where `y` and `z` agree the result is theirs, and `x` elsewhere. */
  lemma MajIsMajority64(x: bv64, y: bv64, z: bv64)
    ensures var r := MajBits64(x, y, z); r & !(y ^ z) == y & !(y ^ z) && r & (y ^ z) == x & (y ^ z)
  {
  }

  /** The functions on words are those on their bits. */
  lemma ChOnBits64(x: bv64, y: bv64, z: bv64)
    ensures Ch64(x as u64, y as u64, z as u64) as bv64 == ChBits64(x, y, z)
  {
    Back64(x);
    Back64(y);
    Back64(z);
    Back64(ChBits64(x, y, z));
  }

  lemma MajOnBits64(x: bv64, y: bv64, z: bv64)
    ensures Maj64(x as u64, y as u64, z as u64) as bv64 == MajBits64(x, y, z)
  {
    Back64(x);
    Back64(y);
    Back64(z);
    Back64(MajBits64(x, y, z));
  }

  predicate OneBit64(m: bv64) {
    m != 0 && m & (m - 1) == 0
  }

  predicate Has64(w: bv64, m: bv64) {
    w & m != 0
  }

  lemma HasSum64(a: bv64, b: bv64, m: bv64)
    requires OneBit64(m)
    ensures Has64(a ^ b, m) == (Has64(a, m) != Has64(b, m))
  {
  }

  lemma HasSumOfThree64(a: bv64, b: bv64, c: bv64, m: bv64)
    requires OneBit64(m)
    ensures Has64(a ^ b ^ c, m) == ((Has64(a, m) != Has64(b, m)) != Has64(c, m))
  {
    HasSum64(a, b, m);
    HasSum64(a ^ b, c, m);
  }

  lemma Turn64By28(w: bv64, m: bv64)
    ensures Has64(w.RotateRight(28), m) == Has64(w, m.RotateLeft(28))
  {
  }

  lemma Turn64By34(w: bv64, m: bv64)
    ensures Has64(w.RotateRight(34), m) == Has64(w, m.RotateLeft(34))
  {
  }

  lemma Turn64By39(w: bv64, m: bv64)
    ensures Has64(w.RotateRight(39), m) == Has64(w, m.RotateLeft(39))
  {
  }

  lemma BigSigma0Adds64(w: bv64, m: bv64)
    requires OneBit64(m)
    ensures Has64(BigSigma0Bits64(w), m)
      == ((Has64(w, m.RotateLeft(28)) != Has64(w, m.RotateLeft(34))) != Has64(w, m.RotateLeft(39)))
  {
    Turn64By28(w, m);
    Turn64By34(w, m);
    Turn64By39(w, m);
    HasSumOfThree64(w.RotateRight(28), w.RotateRight(34), w.RotateRight(39), m);
  }

  lemma BigSigma0OnBits64(w: bv64)
    ensures BigSigma0x64(w as u64) as bv64 == BigSigma0Bits64(w)
  {
    Back64(w);
    Back64(BigSigma0Bits64(w));
  }

  lemma Turn64By14(w: bv64, m: bv64)
    ensures Has64(w.RotateRight(14), m) == Has64(w, m.RotateLeft(14))
  {
  }

  lemma Turn64By18(w: bv64, m: bv64)
    ensures Has64(w.RotateRight(18), m) == Has64(w, m.RotateLeft(18))
  {
  }

  lemma Turn64By41(w: bv64, m: bv64)
    ensures Has64(w.RotateRight(41), m) == Has64(w, m.RotateLeft(41))
  {
  }

  lemma BigSigma1Adds64(w: bv64, m: bv64)
    requires OneBit64(m)
    ensures Has64(BigSigma1Bits64(w), m)
      == ((Has64(w, m.RotateLeft(14)) != Has64(w, m.RotateLeft(18))) != Has64(w, m.RotateLeft(41)))
  {
    Turn64By14(w, m);
    Turn64By18(w, m);
    Turn64By41(w, m);
    HasSumOfThree64(w.RotateRight(14), w.RotateRight(18), w.RotateRight(41), m);
  }

  lemma BigSigma1OnBits64(w: bv64)
    ensures BigSigma1x64(w as u64) as bv64 == BigSigma1Bits64(w)
  {
    Back64(w);
    Back64(BigSigma1Bits64(w));
  }

  lemma Turn64By1(w: bv64, m: bv64)
    ensures Has64(w.RotateRight(1), m) == Has64(w, m.RotateLeft(1))
  {
  }

  lemma Turn64By8(w: bv64, m: bv64)
    ensures Has64(w.RotateRight(8), m) == Has64(w, m.RotateLeft(8))
  {
  }

  lemma Shift64By7(w: bv64, m: bv64)
    ensures Has64(w >> 7, m) == Has64(w, m << 7)
  {
  }

  lemma SmallSigma0Adds64(w: bv64, m: bv64)
    requires OneBit64(m)
    ensures Has64(SmallSigma0Bits64(w), m)
      == ((Has64(w, m.RotateLeft(1)) != Has64(w, m.RotateLeft(8))) != Has64(w, m << 7))
  {
    Turn64By1(w, m);
    Turn64By8(w, m);
    Shift64By7(w, m);
    HasSumOfThree64(w.RotateRight(1), w.RotateRight(8), w >> 7, m);
  }

  lemma SmallSigma0OnBits64(w: bv64)
    ensures SmallSigma0x64(w as u64) as bv64 == SmallSigma0Bits64(w)
  {
    Back64(w);
    Back64(SmallSigma0Bits64(w));
  }

  lemma Turn64By19(w: bv64, m: bv64)
    ensures Has64(w.RotateRight(19), m) == Has64(w, m.RotateLeft(19))
  {
  }

  lemma Turn64By61(w: bv64, m: bv64)
    ensures Has64(w.RotateRight(61), m) == Has64(w, m.RotateLeft(61))
  {
  }

  lemma Shift64By6(w: bv64, m: bv64)
    ensures Has64(w >> 6, m) == Has64(w, m << 6)
  {
  }

  lemma SmallSigma1Adds64(w: bv64, m: bv64)
    requires OneBit64(m)
    ensures Has64(SmallSigma1Bits64(w), m)
      == ((Has64(w, m.RotateLeft(19)) != Has64(w, m.RotateLeft(61))) != Has64(w, m << 6))
  {
    Turn64By19(w, m);
    Turn64By61(w, m);
    Shift64By6(w, m);
    HasSumOfThree64(w.RotateRight(19), w.RotateRight(61), w >> 6, m);
  }

  lemma SmallSigma1OnBits64(w: bv64)
    ensures SmallSigma1x64(w as u64) as bv64 == SmallSigma1Bits64(w)
  {
    Back64(w);
    Back64(SmallSigma1Bits64(w));
  }

  /** What SHA-256 works with, each in its place. */
  lemma Sha256Tables()
    ensures var o := Sha256Ops();
      && o.rounds == 64 && o.k == K256At && o.load == Load32 && o.add == Add32 && o.ch == Ch32 && o.maj == Maj32
      && o.bigSigma0 == BigSigma0x32 && o.bigSigma1 == BigSigma1x32
      && o.smallSigma0 == SmallSigma0x32 && o.smallSigma1 == SmallSigma1x32
  {
  }

  /** What SHA-512 works with, each in its place. */
  lemma Sha512Tables()
    ensures var o := Sha512Ops();
      && o.rounds == 80 && o.k == K512At && o.load == Load64 && o.add == Add64 && o.ch == Ch64 && o.maj == Maj64
      && o.bigSigma0 == BigSigma0x64 && o.bigSigma1 == BigSigma1x64
      && o.smallSigma0 == SmallSigma0x64 && o.smallSigma1 == SmallSigma1x64
  {
  }
}
