/** The shift-and-xor CRC rounds Hawkeye and Mockingjay hash PCs and
    addresses with (Polices/hawkeye/Hawkeye_Predictor/Hawkeye_Predictor.cc
    runs 32 of them, Polices/mockingjay/mockingjay.cc three). */
module CrcHash {
  /** `0xEDB88320`, the reflected CRC-32 polynomial of IEEE 802.3. */
  const CrcPolynomial: bv64 := 0xEDB8_8320

  /** One shift-and-xor round: a set low bit folds the polynomial in. */
  function CrcRound(x: bv64): bv64
  {
    if x & 1 == 1 then (x >> 1) ^ CrcPolynomial else x >> 1
  }

  function CrcRounds(x: bv64, n: nat): bv64
    decreases n
  {
    if n == 0 then x else CrcRounds(CrcRound(x), n - 1)
  }

  /** A zero address hashes to zero: no round ever sees a set low bit. */
  lemma {:induction false} RoundsOfZero(n: nat)
    ensures CrcRounds(0, n) == 0
  {
    if n > 0 {
      assert CrcRound(0) == 0;
      RoundsOfZero(n - 1);
    }
  }
}
