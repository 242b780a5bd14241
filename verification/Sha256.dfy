/** The hand-written SHA-256 of web/offline-core.js against FIPS 180-4: padding (section 5.1.1),
    message schedule and compression (section 6.2.2), constants (sections 4.2.2 and 5.3.3). */
module Sha256 {
  import opened Common

  type Word = x: int | 0 <= x < 0x1_0000_0000

  // ---- constants

  /** The first 64 primes. */
  function Prime(t: nat): int
    requires t < 64
  {
    match t
    case 0 => 2 case 1 => 3 case 2 => 5 case 3 => 7 case 4 => 11 case 5 => 13
    case 6 => 17 case 7 => 19 case 8 => 23 case 9 => 29 case 10 => 31 case 11 => 37
    case 12 => 41 case 13 => 43 case 14 => 47 case 15 => 53 case 16 => 59 case 17 => 61
    case 18 => 67 case 19 => 71 case 20 => 73 case 21 => 79 case 22 => 83 case 23 => 89
    case 24 => 97 case 25 => 101 case 26 => 103 case 27 => 107 case 28 => 109 case 29 => 113
    case 30 => 127 case 31 => 131 case 32 => 137 case 33 => 139 case 34 => 149 case 35 => 151
    case 36 => 157 case 37 => 163 case 38 => 167 case 39 => 173 case 40 => 179 case 41 => 181
    case 42 => 191 case 43 => 193 case 44 => 197 case 45 => 199 case 46 => 211 case 47 => 223
    case 48 => 227 case 49 => 229 case 50 => 233 case 51 => 239 case 52 => 241 case 53 => 251
    case 54 => 257 case 55 => 263 case 56 => 269 case 57 => 271 case 58 => 277 case 59 => 281
    case 60 => 283 case 61 => 293 case 62 => 307 case _ => 311
  }

  /** The table K256. */
  function K256(t: nat): Word
    requires t < 64
  {
    match t
    case 0 => 0x428a2f98 case 1 => 0x71374491 case 2 => 0xb5c0fbcf case 3 => 0xe9b5dba5
    case 4 => 0x3956c25b case 5 => 0x59f111f1 case 6 => 0x923f82a4 case 7 => 0xab1c5ed5
    case 8 => 0xd807aa98 case 9 => 0x12835b01 case 10 => 0x243185be case 11 => 0x550c7dc3
    case 12 => 0x72be5d74 case 13 => 0x80deb1fe case 14 => 0x9bdc06a7 case 15 => 0xc19bf174
    case 16 => 0xe49b69c1 case 17 => 0xefbe4786 case 18 => 0x0fc19dc6 case 19 => 0x240ca1cc
    case 20 => 0x2de92c6f case 21 => 0x4a7484aa case 22 => 0x5cb0a9dc case 23 => 0x76f988da
    case 24 => 0x983e5152 case 25 => 0xa831c66d case 26 => 0xb00327c8 case 27 => 0xbf597fc7
    case 28 => 0xc6e00bf3 case 29 => 0xd5a79147 case 30 => 0x06ca6351 case 31 => 0x14292967
    case 32 => 0x27b70a85 case 33 => 0x2e1b2138 case 34 => 0x4d2c6dfc case 35 => 0x53380d13
    case 36 => 0x650a7354 case 37 => 0x766a0abb case 38 => 0x81c2c92e case 39 => 0x92722c85
    case 40 => 0xa2bfe8a1 case 41 => 0xa81a664b case 42 => 0xc24b8b70 case 43 => 0xc76c51a3
    case 44 => 0xd192e819 case 45 => 0xd6990624 case 46 => 0xf40e3585 case 47 => 0x106aa070
    case 48 => 0x19a4c116 case 49 => 0x1e376c08 case 50 => 0x2748774c case 51 => 0x34b0bcb5
    case 52 => 0x391c0cb3 case 53 => 0x4ed8aa4a case 54 => 0x5b9cca4f case 55 => 0x682e6ff3
    case 56 => 0x748f82ee case 57 => 0x78a5636f case 58 => 0x84c87814 case 59 => 0x8cc70208
    case 60 => 0x90befffa case 61 => 0xa4506ceb case 62 => 0xbef9a3f7 case _ => 0xc67178f2
  }

  /** The initial hash value. */
  function H256(t: nat): bv32
    requires t < 8
  {
    match t
    case 0 => 0x6a09e667 case 1 => 0xbb67ae85 case 2 => 0x3c6ef372 case 3 => 0xa54ff53a
    case 4 => 0x510e527f case 5 => 0x9b05688c case 6 => 0x1f83d9ab case _ => 0x5be0cd19
  }

  /** `k` holds the first 32 bits of the fraction of the cube root of `p`. */
  predicate CubeRootBits(p: int, k: int, whole: int) {
    var c := whole * 0x1_0000_0000 + k;
    c * c * c <= p * 0x1_0000_0000 * 0x1_0000_0000 * 0x1_0000_0000 < (c + 1) * (c + 1) * (c + 1)
  }

  predicate SquareRootBits(p: int, k: int, whole: int) {
    var c := whole * 0x1_0000_0000 + k;
    c * c <= p * 0x1_0000_0000 * 0x1_0000_0000 < (c + 1) * (c + 1)
  }

  function CubeRoot(p: int): int {
    if p < 8 then 1 else if p < 27 then 2 else if p < 64 then 3 else if p < 125 then 4 else if p < 216 then 5 else 6
  }

  function SquareRoot(p: int): int {
    if p < 4 then 1 else if p < 9 then 2 else if p < 16 then 3 else 4
  }

  lemma LowRoundConstants(t: nat)
    requires t < 32
    ensures CubeRootBits(Prime(t), K256(t), CubeRoot(Prime(t)))
  {
  }

  lemma HighRoundConstants(t: nat)
    requires 32 <= t < 64
    ensures CubeRootBits(Prime(t), K256(t), CubeRoot(Prime(t)))
  {
  }

  /** Every round constant is the one of section 4.2.2 for its place. */
  lemma RoundConstants(t: nat)
    requires t < 64
    ensures CubeRootBits(Prime(t), K256(t), CubeRoot(Prime(t)))
  {
    if t < 32 {
      LowRoundConstants(t);
    } else {
      HighRoundConstants(t);
    }
  }

  /** The initial hash value is the one of section 5.3.3. */
  lemma InitialConstants(t: nat)
    requires t < 8
    ensures SquareRootBits(Prime(t), H256(t) as int, SquareRoot(Prime(t)))
  {
  }

  // ---- FIPS 180-4, section 5.1.1

  function ByteOf(x: int): bv8 {
    (x % 256) as bv8
  }

  /** The low 32 bits of `x`, high byte first. */
  function Be32(x: int): seq<bv8> {
    [ByteOf(x / 0x100_0000), ByteOf(x / 0x1_0000), ByteOf(x / 0x100), ByteOf(x)]
  }

  /** The low 64 bits of `x`, high byte first. */
  function Be64(x: int): seq<bv8> {
    Be32(x / 0x1_0000_0000) + Be32(x)
  }

  function Zeros(k: nat): (z: seq<bv8>)
    ensures |z| == k && forall i :: 0 <= i < k ==> z[i] == 0
  {
    seq(k, _ => 0)
  }

  /** The least count of zero bytes after which only the length is missing from a whole block. */
  function ZeroBytes(n: nat): nat {
    (119 - n % 64) % 64
  }

  function Pad(msg: seq<bv8>): (p: seq<bv8>) {
    msg + [0x80] + Zeros(ZeroBytes(|msg|)) + Be64(8 * |msg|)
  }

  lemma PadArithmetic(n: nat)
    ensures (n + 9 + ZeroBytes(n)) % 64 == 0
  {
  }

  /** The padded length is the least multiple of 64 with room for the marker and the length. */
  lemma PadLength(msg: seq<bv8>)
    ensures |Pad(msg)| % 64 == 0
    ensures |msg| + 9 <= |Pad(msg)| < |msg| + 9 + 64
  {
    PadArithmetic(|msg|);
    var z := Zeros(ZeroBytes(|msg|));
    assert |Pad(msg)| == |msg| + 1 + |z| + 8;
  }

  /** The marker stands at |msg|, and only zeros stand between it and the last eight bytes. */
  lemma PadShape(msg: seq<bv8>)
    ensures var p := Pad(msg);
            && |msg| < |p| - 8
            && p[..|msg|] == msg && p[|msg|] == 0x80
            && forall i :: |msg| < i < |p| - 8 ==> p[i] == 0
  {
  }

  lemma NoSecondMarker(msg: seq<bv8>, i: nat)
    requires |msg| < i < |Pad(msg)| - 8
    ensures Pad(msg)[i] != 0x80
  {
    PadShape(msg);
  }

  /** Padding loses nothing: different messages have different padded forms. */
  lemma PadInjective(a: seq<bv8>, b: seq<bv8>)
    requires Pad(a) == Pad(b)
    ensures a == b
  {
    PadShape(a);
    PadShape(b);
    var m: nat, n: nat := |a|, |b|;
    if m < n {
      NoSecondMarker(a, n);
    } else if n < m {
      NoSecondMarker(b, m);
    }
  }

  lemma NestedDivisions(x: nat)
    ensures x / 0x1_0000_0000 / 0x100_0000 == x / 0x100_0000_0000_0000
    ensures x / 0x1_0000_0000 / 0x1_0000 == x / 0x1_0000_0000_0000
    ensures x / 0x1_0000_0000 / 0x100 == x / 0x100_0000_0000
  {
  }

  /** The last eight bytes are the base-256 digits of the length of the message in bits. */
  lemma LengthField(msg: seq<bv8>)
    ensures |Pad(msg)| >= 8
    ensures var end, bits := Pad(msg)[|Pad(msg)| - 8..], 8 * |msg|;
            && end[0] == (bits / 0x100_0000_0000_0000 % 256) as bv8
            && end[1] == (bits / 0x1_0000_0000_0000 % 256) as bv8
            && end[2] == (bits / 0x100_0000_0000 % 256) as bv8
            && end[3] == (bits / 0x1_0000_0000 % 256) as bv8
            && end[4] == (bits / 0x100_0000 % 256) as bv8
            && end[5] == (bits / 0x1_0000 % 256) as bv8
            && end[6] == (bits / 0x100 % 256) as bv8
            && end[7] == (bits % 256) as bv8
  {
    var front := msg + [0x80] + Zeros(ZeroBytes(|msg|));
    assert Pad(msg) == front + Be64(8 * |msg|);
    assert Pad(msg)[|front|..] == Be64(8 * |msg|);
    NestedDivisions(8 * |msg|);
  }

  // ---- FIPS 180-4, sections 4.1.2 and 6.2.2

  function WordAt(bytes: seq<bv8>, i: nat): bv32
    requires i + 4 <= |bytes|
  {
    (bytes[i] as bv32 << 24) | (bytes[i + 1] as bv32 << 16) | (bytes[i + 2] as bv32 << 8) | bytes[i + 3] as bv32
  }

  /** ROTR of section 3.2, which the code writes out the same way. */
  function Rotr(x: bv32, n: bv32): bv32
    requires 0 < n < 32
  {
    (x >> n) | (x << (32 - n))
  }

  /** The shifts make a rotation for every amount in use. */
  lemma RotrRotates(x: bv32)
    ensures Rotr(x, 2) == x.RotateRight(2) && Rotr(x, 6) == x.RotateRight(6) && Rotr(x, 7) == x.RotateRight(7)
    ensures Rotr(x, 11) == x.RotateRight(11) && Rotr(x, 13) == x.RotateRight(13) && Rotr(x, 17) == x.RotateRight(17)
    ensures Rotr(x, 18) == x.RotateRight(18) && Rotr(x, 19) == x.RotateRight(19) && Rotr(x, 22) == x.RotateRight(22)
    ensures Rotr(x, 25) == x.RotateRight(25)
  {
  }

  function BigSigma0(x: bv32): bv32 {
    Rotr(x, 2) ^ Rotr(x, 13) ^ Rotr(x, 22)
  }

  function BigSigma1(x: bv32): bv32 {
    Rotr(x, 6) ^ Rotr(x, 11) ^ Rotr(x, 25)
  }

  function SmallSigma0(x: bv32): bv32 {
    Rotr(x, 7) ^ Rotr(x, 18) ^ (x >> 3)
  }

  function SmallSigma1(x: bv32): bv32 {
    Rotr(x, 17) ^ Rotr(x, 19) ^ (x >> 10)
  }

  function Ch(x: bv32, y: bv32, z: bv32): bv32 {
    (x & y) ^ (!x & z)
  }

  function Maj(x: bv32, y: bv32, z: bv32): bv32 {
    (x & y) ^ (x & z) ^ (y & z)
  }

  /** Addition modulo 2^32. */
  function Sum(x: bv32, y: bv32): bv32 {
    x + y
  }

  /** A schedule word from the ones 2, 7, 15 and 16 places before it. */
  function NextWord(w2: bv32, w7: bv32, w15: bv32, w16: bv32): bv32 {
    Sum(Sum(Sum(w16, SmallSigma0(w15)), w7), SmallSigma1(w2))
  }

  /** Word `t` of the message schedule of the block that starts at `offset`. */
  function Schedule(bytes: seq<bv8>, offset: nat, t: nat): bv32
    requires offset + 64 <= |bytes| && t < 64
  {
    if t < 16 then WordAt(bytes, offset + 4 * t)
    else
      NextWord(Schedule(bytes, offset, t - 2), Schedule(bytes, offset, t - 7),
               Schedule(bytes, offset, t - 15), Schedule(bytes, offset, t - 16))
  }

  datatype Hash = Hash(a: bv32, b: bv32, c: bv32, d: bv32, e: bv32, f: bv32, g: bv32, h: bv32)

  function K(t: nat): bv32
    requires t < 64
  {
    K256(t) as bv32
  }

  function T1(e: bv32, f: bv32, g: bv32, h: bv32, k: bv32, w: bv32): bv32 {
    Sum(Sum(Sum(Sum(h, BigSigma1(e)), Ch(e, f, g)), k), w)
  }

  function T2(a: bv32, b: bv32, c: bv32): bv32 {
    Sum(BigSigma0(a), Maj(a, b, c))
  }

  function Round(s: Hash, k: bv32, w: bv32): Hash {
    var t1, t2 := T1(s.e, s.f, s.g, s.h, k, w), T2(s.a, s.b, s.c);
    Hash(Sum(t1, t2), s.a, s.b, s.c, Sum(s.d, t1), s.e, s.f, s.g)
  }

  /** The working variables after `t` rounds on the block at `offset`. */
  function Rounds(bytes: seq<bv8>, offset: nat, s: Hash, t: nat): Hash
    requires offset + 64 <= |bytes| && t <= 64
  {
    if t == 0 then s else Round(Rounds(bytes, offset, s, t - 1), K(t - 1), Schedule(bytes, offset, t - 1))
  }

  function Added(s: Hash, r: Hash): Hash {
    Hash(Sum(s.a, r.a), Sum(s.b, r.b), Sum(s.c, r.c), Sum(s.d, r.d), Sum(s.e, r.e), Sum(s.f, r.f), Sum(s.g, r.g),
         Sum(s.h, r.h))
  }

  function Compress(bytes: seq<bv8>, offset: nat, s: Hash): Hash
    requires offset + 64 <= |bytes|
  {
    Added(s, Rounds(bytes, offset, s, 64))
  }

  const INITIAL: Hash :=
    Hash(H256(0), H256(1), H256(2), H256(3),
         H256(4), H256(5), H256(6), H256(7))

  /** The hash value after the first `n` blocks. */
  function HashBlocks(bytes: seq<bv8>, n: nat): Hash
    requires 64 * n <= |bytes|
  {
    if n == 0 then INITIAL else Compress(bytes, 64 * (n - 1), HashBlocks(bytes, n - 1))
  }

  function Digest(msg: seq<bv8>): Hash {
    PadLength(msg);
    HashBlocks(Pad(msg), |Pad(msg)| / 64)
  }

  // ---- the equations of the standard, written out

  /** Section 4.1.2: the four sums of rotations. */
  lemma SigmasAre(x: bv32)
    ensures BigSigma0(x) == Rotr(x, 2) ^ Rotr(x, 13) ^ Rotr(x, 22)
    ensures BigSigma1(x) == Rotr(x, 6) ^ Rotr(x, 11) ^ Rotr(x, 25)
    ensures SmallSigma0(x) == Rotr(x, 7) ^ Rotr(x, 18) ^ (x >> 3)
    ensures SmallSigma1(x) == Rotr(x, 17) ^ Rotr(x, 19) ^ (x >> 10)
  {
  }

  /** `Ch` takes the bits of `y` where `x` has ones and those of `z` where it has zeros. */
  lemma ChChooses(x: bv32, y: bv32, z: bv32)
    ensures Ch(x, y, z) == (x & y) | (!x & z)
  {
  }

  /** `Maj` has ones where two of the three have ones. */
  lemma MajIsMajority(x: bv32, y: bv32, z: bv32)
    ensures Maj(x, y, z) == (x & y) | (x & z) | (y & z)
  {
  }

  lemma SumWraps(x: bv32, y: bv32)
    ensures Sum(x, y) == x + y
  {
  }

  /** Section 6.2.2, step 1: the words of the block with its bytes, high byte first. */
  lemma {:induction false} FirstWordsAre(bytes: seq<bv8>, offset: nat, t: nat)
    requires offset + 64 <= |bytes| && t < 16
    ensures var w, i := Schedule(bytes, offset, t), offset + 4 * t;
            && w >> 24 == bytes[i] as bv32 && (w >> 16) & 0xff == bytes[i + 1] as bv32
            && (w >> 8) & 0xff == bytes[i + 2] as bv32 && w & 0xff == bytes[i + 3] as bv32
  {
    WordBytes(bytes[offset + 4 * t], bytes[offset + 4 * t + 1], bytes[offset + 4 * t + 2], bytes[offset + 4 * t + 3]);
  }

  lemma WordBytes(b3: bv8, b2: bv8, b1: bv8, b0: bv8)
    ensures var w := (b3 as bv32 << 24) | (b2 as bv32 << 16) | (b1 as bv32 << 8) | b0 as bv32;
            && w >> 24 == b3 as bv32 && (w >> 16) & 0xff == b2 as bv32
            && (w >> 8) & 0xff == b1 as bv32 && w & 0xff == b0 as bv32
  {
  }

  /** And the recurrence for the other words. */
  lemma OtherWordsAre(bytes: seq<bv8>, offset: nat, t: nat)
    requires offset + 64 <= |bytes| && 16 <= t < 64
    ensures Schedule(bytes, offset, t)
         == Sum(Sum(Sum(Schedule(bytes, offset, t - 16), SmallSigma0(Schedule(bytes, offset, t - 15))),
                    Schedule(bytes, offset, t - 7)),
                SmallSigma1(Schedule(bytes, offset, t - 2)))
  {
  }

  /** Section 6.2.2, step 3: a round, on the constants and words in order. */
  lemma RoundIs(bytes: seq<bv8>, offset: nat, s: Hash, t: nat)
    requires offset + 64 <= |bytes| && t < 64
    ensures var r := Rounds(bytes, offset, s, t);
            var t1 := Sum(Sum(Sum(Sum(r.h, BigSigma1(r.e)), Ch(r.e, r.f, r.g)), K256(t) as bv32),
                          Schedule(bytes, offset, t));
            var t2 := Sum(BigSigma0(r.a), Maj(r.a, r.b, r.c));
            Rounds(bytes, offset, s, t + 1) == Hash(Sum(t1, t2), r.a, r.b, r.c, Sum(r.d, t1), r.e, r.f, r.g)
  {
  }

  /** Section 6.2.2, step 4, and the initial value of section 5.3.3. */
  lemma {:induction false} BlocksAre(msg: seq<bv8>, n: nat, last: nat)
    requires 64 * n + 64 <= |Pad(msg)| && last == 64
    ensures HashBlocks(Pad(msg), 0) == Hash(0x6a09e667, 0xbb67ae85, 0x3c6ef372, 0xa54ff53a,
                                            0x510e527f, 0x9b05688c, 0x1f83d9ab, 0x5be0cd19)
    ensures var s := HashBlocks(Pad(msg), n);
            var r := Rounds(Pad(msg), 64 * n, s, last);
            && Rounds(Pad(msg), 64 * n, s, 0) == s
            && HashBlocks(Pad(msg), n + 1)
               == Hash(Sum(s.a, r.a), Sum(s.b, r.b), Sum(s.c, r.c), Sum(s.d, r.d),
                       Sum(s.e, r.e), Sum(s.f, r.f), Sum(s.g, r.g), Sum(s.h, r.h))
    ensures Digest(msg) == HashBlocks(Pad(msg), |Pad(msg)| / 64)
  {
  }

  // ---- the code

  /** JavaScript's ToInt32, which `>>` applies to its operand. */
  function ToInt32(x: int): int {
    var u := x % 0x1_0000_0000;
    if u < 0x8000_0000 then u else u - 0x1_0000_0000
  }

  /** The length the code allocates: the shift by 6 is a floor division of a 32-bit value. */
  function CodePaddedLength(n: nat): int {
    (ToInt32(n + 8) / 64 + 1) * 64
  }

  lemma ShortLength(n: nat)
    requires n + 8 < 0x8000_0000
    ensures CodePaddedLength(n) == n + 9 + ZeroBytes(n)
  {
  }

  lemma WrappedLength(n: nat)
    requires n + 8 >= 0x8000_0000
    ensures CodePaddedLength(n) < n
  {
  }

  /** The allocated length is the standard's exactly for messages shorter than 2^31 - 8 bytes;
      for longer ones not even the message fits. */
  lemma CodePaddedLengthIsFips(msg: seq<bv8>)
    ensures CodePaddedLength(|msg|) == |Pad(msg)| <==> |msg| + 8 < 0x8000_0000
    ensures |msg| + 8 >= 0x8000_0000 ==> CodePaddedLength(|msg|) < |msg|
  {
    PadLength(msg);
    if |msg| + 8 < 0x8000_0000 {
      ShortLength(|msg|);
      var z := Zeros(ZeroBytes(|msg|));
      assert |Pad(msg)| == |msg| + 1 + |z| + 8;
    } else {
      WrappedLength(|msg|);
    }
  }

  /** `view.setUint32(at, x, false)`. */
  method SetUint32(view: array<bv8>, at: nat, x: int)
    requires at + 4 <= view.Length
    modifies view
    ensures view[..] == old(view[..at]) + Be32(x) + old(view[at + 4..])
  {
    view[at] := ByteOf(x / 0x100_0000);
    view[at + 1] := ByteOf(x / 0x1_0000);
    view[at + 2] := ByteOf(x / 0x100);
    view[at + 3] := ByteOf(x);
  }

  lemma SameResidue(q: int, b: int)
    ensures (256 * q + b) % 256 == b % 256
  {
  }

  lemma SameByte(q: int, b: int)
    ensures ByteOf(256 * q + b) == ByteOf(b)
  {
    SameResidue(q, b);
  }

  lemma HighByte(q: int, u: int)
    ensures ByteOf((0x1_0000_0000 * q + u) / 0x100_0000) == ByteOf(u / 0x100_0000)
  {
    assert (0x1_0000_0000 * q + u) / 0x100_0000 == 256 * q + u / 0x100_0000;
    SameByte(q, u / 0x100_0000);
  }

  lemma MiddleByte(q: int, u: int)
    ensures ByteOf((0x1_0000_0000 * q + u) / 0x1_0000) == ByteOf(u / 0x1_0000)
  {
    assert (0x1_0000_0000 * q + u) / 0x1_0000 == 256 * (256 * q) + u / 0x1_0000;
    SameByte(256 * q, u / 0x1_0000);
  }

  lemma LowByte(q: int, u: int)
    ensures ByteOf((0x1_0000_0000 * q + u) / 0x100) == ByteOf(u / 0x100)
    ensures ByteOf(0x1_0000_0000 * q + u) == ByteOf(u)
  {
    assert (0x1_0000_0000 * q + u) / 0x100 == 256 * (0x1_0000 * q) + u / 0x100;
    SameByte(0x1_0000 * q, u / 0x100);
    SameByte(0x100_0000 * q, u);
  }

  /** Adding a multiple of 2^32 changes no byte of the low word. */
  lemma LowWord(x: int)
    ensures Be32(x % 0x1_0000_0000) == Be32(x)
  {
    var q, u := x / 0x1_0000_0000, x % 0x1_0000_0000;
    assert x == 0x1_0000_0000 * q + u;
    HighByte(q, u);
    MiddleByte(q, u);
    LowByte(q, u);
  }

  /** The two length words land where the standard puts the 64-bit length. */
  lemma PaddedBytes(msg: seq<bv8>, marked: seq<bv8>, half: seq<bv8>)
    requires var n := |Pad(msg)|; n >= |msg| + 9 && marked == msg + [0x80] + Zeros(n - |msg| - 1)
    requires var n := |Pad(msg)|; half == marked[..n - 8] + Be32(8 * |msg| / 0x1_0000_0000) + marked[n - 4..]
    ensures var n := |Pad(msg)|; half[..n - 4] + Be32(8 * |msg| % 0x1_0000_0000) == Pad(msg)
  {
    var n := |Pad(msg)|;
    LowWord(8 * |msg|);
    assert n == |msg| + 1 + ZeroBytes(|msg|) + 8;
    assert half[..n - 4] == marked[..n - 8] + Be32(8 * |msg| / 0x1_0000_0000);
    assert marked[..n - 8] == msg + [0x80] + Zeros(ZeroBytes(|msg|));
  }

  /** `new Uint8Array(length)`, `set` and the marker byte. */
  method MarkedCopy(msg: seq<bv8>, length: nat) returns (bytes: array<bv8>)
    requires |msg| < length
    ensures fresh(bytes) && bytes[..] == msg + [0x80] + Zeros(length - |msg| - 1)
  {
    bytes := new bv8[length](_ => 0);
    forall i | 0 <= i < |msg| {
      bytes[i] := msg[i];
    }
    bytes[|msg|] := 0x80;
  }

  /** The two calls of setUint32. */
  method SetLength(msg: seq<bv8>, bytes: array<bv8>)
    requires bytes.Length == |Pad(msg)| >= |msg| + 9
    requires bytes[..] == msg + [0x80] + Zeros(bytes.Length - |msg| - 1)
    modifies bytes
    ensures bytes[..] == Pad(msg)
  {
    var bitLen := 8 * |msg|;
    var length := bytes.Length;
    ghost var marked := bytes[..];
    SetUint32(bytes, length - 8, bitLen / 0x1_0000_0000);
    ghost var half := bytes[..];
    SetUint32(bytes, length - 4, bitLen % 0x1_0000_0000);
    PaddedBytes(msg, marked, half);
  }

  /** Allocation and padding; None stands for the RangeError of a wrapped length. */
  method PadMessage(msg: seq<bv8>) returns (padded: Option<array<bv8>>)
    ensures padded.Some? <==> |msg| + 8 < 0x8000_0000
    ensures padded.Some? ==> fresh(padded.value) && padded.value[..] == Pad(msg)
  {
    CodePaddedLengthIsFips(msg);
    PadLength(msg);
    var length := CodePaddedLength(|msg|);
    if length < |msg| {
      return None;
    }
    var bytes := MarkedCopy(msg, length);
    SetLength(msg, bytes);
    padded := Some(bytes);
  }

  /** The first `n` words of `w` are the schedule of the block at `offset`. */
  ghost predicate Scheduled(bytes: seq<bv8>, offset: nat, w: array<bv32>, n: nat)
    reads w
  {
    && offset + 64 <= |bytes| && n <= 64 == w.Length
    && forall t :: 0 <= t < n ==> w[t] == Schedule(bytes, offset, t)
  }

  /** The first schedule loop: sixteen words read from the block. */
  method LoadWords(view: array<bv8>, offset: nat, w: array<bv32>)
    requires offset + 64 <= view.Length && w.Length == 64
    modifies w
    ensures Scheduled(view[..], offset, w, 16)
  {
    ghost var bytes := view[..];
    for i := 0 to 16
      invariant Scheduled(bytes, offset, w, i)
    {
      w[i] := WordAt(view[..], offset + i * 4);
    }
  }

  /** The second: the other words computed in place. */
  method ExtendWords(w: array<bv32>, ghost bytes: seq<bv8>, ghost offset: nat)
    requires Scheduled(bytes, offset, w, 16)
    modifies w
    ensures Scheduled(bytes, offset, w, 64)
  {
    for i := 16 to 64
      invariant Scheduled(bytes, offset, w, i)
    {
      w[i] := NextWord(w[i - 2], w[i - 7], w[i - 15], w[i - 16]);
    }
  }

  /** The round loop, on eight local variables. */
  method RunRounds(s: Hash, w: array<bv32>, ghost bytes: seq<bv8>, ghost offset: nat) returns (r: Hash)
    requires Scheduled(bytes, offset, w, 64)
    ensures r == Rounds(bytes, offset, s, 64)
  {
    var a, b, c, d := s.a, s.b, s.c, s.d;
    var e, f, g, hh := s.e, s.f, s.g, s.h;
    for i := 0 to 64
      invariant Hash(a, b, c, d, e, f, g, hh) == Rounds(bytes, offset, s, i)
    {
      var t1 := T1(e, f, g, hh, K(i), w[i]);
      var t2 := T2(a, b, c);
      hh := g; g := f; f := e; e := Sum(d, t1);
      d := c; c := b; b := a; a := Sum(t1, t2);
    }
    r := Hash(a, b, c, d, e, f, g, hh);
  }

  /** The hash value that the array `h` holds. */
  function Loaded(h: array<bv32>): Hash
    requires h.Length == 8
    reads h
  {
    Hash(h[0], h[1], h[2], h[3], h[4], h[5], h[6], h[7])
  }

  /** The eight additions at the end of a block. */
  method AddInto(h: array<bv32>, r: Hash)
    requires h.Length == 8
    modifies h
    ensures Loaded(h) == Added(old(Loaded(h)), r)
  {
    var a, b, c, d := h[0], h[1], h[2], h[3];
    var e, f, g, hh := h[4], h[5], h[6], h[7];
    h[0] := Sum(a, r.a);
    h[1] := Sum(b, r.b);
    h[2] := Sum(c, r.c);
    h[3] := Sum(d, r.d);
    h[4] := Sum(e, r.e);
    h[5] := Sum(f, r.f);
    h[6] := Sum(g, r.g);
    h[7] := Sum(hh, r.h);
  }

  // ---- the digest text

  function HexDigit(d: nat): char
    requires d < 16
  {
    "0123456789abcdef"[d]
  }

  function DigitValue(c: char): nat {
    if '0' <= c <= '9' then (c - '0') as nat
    else if 'a' <= c <= 'f' then (c - 'a') as nat + 10
    else 0
  }

  /** `toString(16)` of a nonnegative number. */
  function ToHex(x: nat): (s: string)
    ensures |s| >= 1
  {
    if x < 16 then [HexDigit(x)] else ToHex(x / 16) + [HexDigit(x % 16)]
  }

  function PadStart(s: string, n: nat): string
    decreases n - |s|
  {
    if |s| >= n then s else PadStart("0" + s, n)
  }

  function FromHex(s: string): nat {
    if s == "" then 0 else 16 * FromHex(s[..|s| - 1]) + DigitValue(s[|s| - 1])
  }

  /** The text of one word of the hash. */
  function WordText(x: bv32): string {
    PadStart(ToHex(x as nat), 8)
  }

  function HashText(s: Hash): string {
    WordText(s.a) + WordText(s.b) + WordText(s.c) + WordText(s.d)
    + WordText(s.e) + WordText(s.f) + WordText(s.g) + WordText(s.h)
  }

  predicate LowerHex(s: string) {
    forall c :: c in s ==> '0' <= c <= '9' || 'a' <= c <= 'f'
  }

  function Power16(n: nat): nat {
    if n == 0 then 1 else 16 * Power16(n - 1)
  }

  lemma DigitRoundTrip(d: nat)
    requires d < 16
    ensures DigitValue(HexDigit(d)) == d
    ensures LowerHex([HexDigit(d)])
  {
  }

  /** `toString(16)` reads back. */
  lemma {:induction false} ToHexReads(x: nat)
    ensures FromHex(ToHex(x)) == x && LowerHex(ToHex(x))
  {
    var s := ToHex(x);
    DigitRoundTrip(x % 16);
    if x < 16 {
      assert s[..0] == "";
    } else {
      ToHexReads(x / 16);
      assert s[..|s| - 1] == ToHex(x / 16);
    }
  }

  /** A number below 16^n has at most n digits. */
  lemma {:induction false} ToHexLength(x: nat, n: nat)
    requires n > 0 && x < Power16(n)
    ensures |ToHex(x)| <= n
  {
    if x >= 16 {
      ToHexLength(x / 16, n - 1);
    }
  }

  lemma {:induction false} LeadingZero(s: string)
    ensures FromHex("0" + s) == FromHex(s)
  {
    if s == "" {
      assert ("0" + s)[..0] == "";
    } else {
      LeadingZero(s[..|s| - 1]);
      assert ("0" + s)[..|s|] == "0" + s[..|s| - 1];
    }
  }

  lemma {:induction false} PadStartKeepsValue(s: string, n: nat)
    requires |s| <= n && LowerHex(s)
    ensures |PadStart(s, n)| == n && LowerHex(PadStart(s, n))
    ensures FromHex(PadStart(s, n)) == FromHex(s)
    decreases n - |s|
  {
    if |s| < n {
      LeadingZero(s);
      PadStartKeepsValue("0" + s, n);
    }
  }

  /** Every word takes eight lower-case digits that give the word back. */
  lemma WordTextReads(x: bv32)
    ensures |WordText(x)| == 8 && LowerHex(WordText(x))
    ensures FromHex(WordText(x)) == x as nat
  {
    assert Power16(8) == 0x1_0000_0000;
    ToHexReads(x as nat);
    ToHexLength(x as nat, 8);
    PadStartKeepsValue(ToHex(x as nat), 8);
  }

  lemma Eighths(a: string, b: string, c: string, d: string, e: string, f: string, g: string, h: string)
    requires |a| == |b| == |c| == |d| == |e| == |f| == |g| == |h| == 8
    ensures var text := a + b + c + d + e + f + g + h;
            && |text| == 64
            && text[..8] == a && text[8..16] == b && text[16..24] == c && text[24..32] == d
            && text[32..40] == e && text[40..48] == f && text[48..56] == g && text[56..] == h
  {
  }

  /** The digest text has 64 lower-case hexadecimal digits, which spell the eight words in order. */
  lemma HashTextShape(s: Hash)
    ensures |HashText(s)| == 64 && LowerHex(HashText(s))
    ensures var text := HashText(s);
            && FromHex(text[..8]) == s.a as nat && FromHex(text[8..16]) == s.b as nat
            && FromHex(text[16..24]) == s.c as nat && FromHex(text[24..32]) == s.d as nat
            && FromHex(text[32..40]) == s.e as nat && FromHex(text[40..48]) == s.f as nat
            && FromHex(text[48..56]) == s.g as nat && FromHex(text[56..]) == s.h as nat
  {
    WordTextReads(s.a);
    WordTextReads(s.b);
    WordTextReads(s.c);
    WordTextReads(s.d);
    WordTextReads(s.e);
    WordTextReads(s.f);
    WordTextReads(s.g);
    WordTextReads(s.h);
    Eighths(WordText(s.a), WordText(s.b), WordText(s.c), WordText(s.d),
            WordText(s.e), WordText(s.f), WordText(s.g), WordText(s.h));
  }

  // ---- the whole function

  ghost predicate TraceStep(bytes: seq<bv8>, hashes: seq<Hash>, k: nat)
    requires k + 1 < |hashes| && 64 * k + 64 <= |bytes|
  {
    hashes[k + 1] == Compress(bytes, 64 * k, hashes[k])
  }

  ghost predicate TraceSteps(bytes: seq<bv8>, hashes: seq<Hash>, n: nat)
    requires n < |hashes| && 64 * n <= |bytes|
  {
    forall k :: 0 <= k < n ==> TraceStep(bytes, hashes, k)
  }

  /** `hashes` lists the hash values after 0, 1, ..., `n` blocks. */
  ghost predicate Trace(bytes: seq<bv8>, n: nat, hashes: seq<Hash>) {
    64 * n <= |bytes| && |hashes| == n + 1 && TraceSteps(bytes, hashes, n)
  }

  lemma {:induction false} TraceIsHash(bytes: seq<bv8>, n: nat, hashes: seq<Hash>, k: nat)
    requires Trace(bytes, n, hashes) && hashes[0] == INITIAL && k <= n
    ensures hashes[k] == HashBlocks(bytes, k)
  {
    if k > 0 {
      TraceIsHash(bytes, n, hashes, k - 1);
      assert TraceStep(bytes, hashes, k - 1);
    }
  }

  lemma {:induction false} TraceEnd(bytes: seq<bv8>, n: nat, hashes: seq<Hash>)
    requires Trace(bytes, n, hashes) && hashes[0] == INITIAL && 64 * n == |bytes|
    ensures hashes[n] == HashBlocks(bytes, |bytes| / 64)
  {
    assert |bytes| / 64 == n;
    TraceIsHash(bytes, n, hashes, n);
  }

  lemma StepSnoc(bytes: seq<bv8>, hashes: seq<Hash>, next: Hash, k: nat)
    requires k + 1 < |hashes| && 64 * k + 64 <= |bytes|
    ensures TraceStep(bytes, hashes, k) == TraceStep(bytes, hashes + [next], k)
  {
  }

  lemma LastStep(bytes: seq<bv8>, n: nat, hashes: seq<Hash>, next: Hash)
    requires |hashes| == n + 1 && 64 * n + 64 <= |bytes|
    ensures TraceStep(bytes, hashes + [next], n) <==> next == Compress(bytes, 64 * n, hashes[n])
  {
  }

  lemma StepsSnoc(bytes: seq<bv8>, n: nat, hashes: seq<Hash>, next: Hash)
    requires |hashes| == n + 1 && 64 * n <= |bytes| && TraceSteps(bytes, hashes, n)
    ensures TraceSteps(bytes, hashes + [next], n)
  {
    forall k | 0 <= k < n
      ensures TraceStep(bytes, hashes + [next], k)
    {
      StepSnoc(bytes, hashes, next, k);
    }
  }

  lemma TraceSnoc(bytes: seq<bv8>, n: nat, hashes: seq<Hash>, next: Hash)
    requires Trace(bytes, n, hashes) && 64 * n + 64 <= |bytes|
    requires TraceStep(bytes, hashes + [next], n)
    ensures Trace(bytes, n + 1, hashes + [next])
  {
    StepsSnoc(bytes, n, hashes, next);
  }

  /** One turn of the outer loop. */
  method CompressBlock(view: array<bv8>, offset: nat, h: array<bv32>, w: array<bv32>)
    requires offset + 64 <= view.Length && w.Length == 64 && h.Length == 8 && w != h
    modifies h, w
    ensures Loaded(h) == Compress(view[..], offset, old(Loaded(h)))
  {
    LoadWords(view, offset, w);
    ExtendWords(w, view[..], offset);
    var r := RunRounds(Loaded(h), w, view[..], offset);
    AddInto(h, r);
  }

  method TakeBlock(view: array<bv8>, offset: nat, h: array<bv32>, w: array<bv32>, ghost n: nat, ghost hashes: seq<Hash>)
    returns (ghost next: Hash)
    requires h.Length == 8 && w.Length == 64 && w != h && offset == 64 * n && offset + 64 <= view.Length
    requires Trace(view[..], n, hashes) && Loaded(h) == hashes[n]
    modifies h, w
    ensures Loaded(h) == next && Trace(view[..], n + 1, hashes + [next])
  {
    CompressBlock(view, offset, h, w);
    next := Loaded(h);
    LastStep(view[..], n, hashes, next);
    TraceSnoc(view[..], n, hashes, next);
  }

  method InitialHash() returns (h: array<bv32>)
    ensures fresh(h) && h.Length == 8 && Loaded(h) == INITIAL
  {
    h := new bv32[8](t requires 0 <= t < 8 => H256(t));
  }

  /** The outer loop over the blocks of the padded message. */
  method RunBlocks(view: array<bv8>, h: array<bv32>, w: array<bv32>) returns (ghost n: nat, ghost hashes: seq<Hash>)
    requires h.Length == 8 && w.Length == 64 && w != h && view.Length % 64 == 0
    requires Loaded(h) == INITIAL
    modifies h, w
    ensures Trace(view[..], n, hashes) && hashes[0] == INITIAL
    ensures 64 * n == view.Length && Loaded(h) == hashes[n]
  {
    var offset := 0;
    n, hashes := 0, [INITIAL];
    while offset < view.Length
      invariant offset == 64 * n <= view.Length
      invariant Trace(view[..], n, hashes) && hashes[0] == INITIAL
      invariant Loaded(h) == hashes[n]
    {
      ghost var next := TakeBlock(view, offset, h, w, n, hashes);
      hashes := hashes + [next];
      offset := offset + 64;
      n := n + 1;
    }
  }

  method HashView(view: array<bv8>) returns (hash: Hash)
    requires view.Length % 64 == 0
    ensures hash == HashBlocks(view[..], view.Length / 64)
  {
    var h := InitialHash();
    var w := new bv32[64];
    ghost var n, hashes := RunBlocks(view, h, w);
    TraceEnd(view[..], n, hashes);
    hash := Loaded(h);
  }

  /** `sha256`: on every message that the code can pad, the text of the FIPS 180-4 digest. */
  method Sha256(msg: seq<bv8>) returns (text: Option<string>)
    ensures text.Some? <==> |msg| + 8 < 0x8000_0000
    ensures text.Some? ==> text.value == HashText(Digest(msg))
  {
    var padded := PadMessage(msg);
    PadLength(msg);
    if padded.Some? {
      var hash := HashView(padded.value);
      text := Some(HashText(hash));
    } else {
      text := None;
    }
  }
}
