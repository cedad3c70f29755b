/** MD5 (RFC 1321) as a streaming context: src/md5.c, and its two users, the writer that hashes the
    file in 1024-byte reads and the reader that hashes it byte by byte. */
module Md5 {
  import opened Bytes

  type word = bv32

  datatype State = State(a: word, b: word, c: word, d: word)

  // ---------------------------------------------------------------- sections 3.3 and 3.4 of RFC 1321

  const INIT := State(0x67452301, 0xefcdab89, 0x98badcfe, 0x10325476)

  function F(x: word, y: word, z: word): word { (x & y) | (!x & z) }
  function G(x: word, y: word, z: word): word { (x & z) | (y & !z) }
  function H(x: word, y: word, z: word): word { x ^ y ^ z }
  function I(x: word, y: word, z: word): word { y ^ (x | !z) }

  /** F takes y where x is set and z elsewhere. */
  lemma FChooses(x: word, y: word, z: word)
    ensures F(x, y, z) & x == y & x && F(x, y, z) & !x == z & !x
  {
  }

  /** G takes x where z is set and y elsewhere. */
  lemma GChooses(x: word, y: word, z: word)
    ensures G(x, y, z) & z == x & z && G(x, y, z) & !z == y & !z
  {
  }

  /** H has the bits that are set in one of the three words or in all. */
  lemma HIsParity(x: word, y: word, z: word)
    ensures H(x, y, z) == (x & y & z) | (x & !y & !z) | (!x & y & !z) | (!x & !y & z)
  {
  }

  /** I differs from y exactly where x is set or z is clear. */
  lemma IDiffers(x: word, y: word, z: word)
    ensures I(x, y, z) ^ y == x | !z
  {
  }

  function RotateLeft(x: word, s: nat): word
    requires 0 < s < 32
  {
    (x << s) | (x >> (32 - s))
  }

  /** `a = b + ((a + mix + X[k] + T[i]) <<< s)`. */
  function Op(mix: word, a: word, b: word, xk: word, s: nat, t: word): word
    requires 0 < s < 32
  {
    RotateLeft(a + (mix + xk + t), s) + b
  }

  /** The table T of section 3.4: the integer part of 4294967296 * abs(sin(i + 1)). */
  function T(i: nat): word {
    match i
    case 0 => 0xd76aa478
    case 1 => 0xe8c7b756
    case 2 => 0x242070db
    case 3 => 0xc1bdceee
    case 4 => 0xf57c0faf
    case 5 => 0x4787c62a
    case 6 => 0xa8304613
    case 7 => 0xfd469501
    case 8 => 0x698098d8
    case 9 => 0x8b44f7af
    case 10 => 0xffff5bb1
    case 11 => 0x895cd7be
    case 12 => 0x6b901122
    case 13 => 0xfd987193
    case 14 => 0xa679438e
    case 15 => 0x49b40821
    case 16 => 0xf61e2562
    case 17 => 0xc040b340
    case 18 => 0x265e5a51
    case 19 => 0xe9b6c7aa
    case 20 => 0xd62f105d
    case 21 => 0x2441453
    case 22 => 0xd8a1e681
    case 23 => 0xe7d3fbc8
    case 24 => 0x21e1cde6
    case 25 => 0xc33707d6
    case 26 => 0xf4d50d87
    case 27 => 0x455a14ed
    case 28 => 0xa9e3e905
    case 29 => 0xfcefa3f8
    case 30 => 0x676f02d9
    case 31 => 0x8d2a4c8a
    case 32 => 0xfffa3942
    case 33 => 0x8771f681
    case 34 => 0x6d9d6122
    case 35 => 0xfde5380c
    case 36 => 0xa4beea44
    case 37 => 0x4bdecfa9
    case 38 => 0xf6bb4b60
    case 39 => 0xbebfbc70
    case 40 => 0x289b7ec6
    case 41 => 0xeaa127fa
    case 42 => 0xd4ef3085
    case 43 => 0x4881d05
    case 44 => 0xd9d4d039
    case 45 => 0xe6db99e5
    case 46 => 0x1fa27cf8
    case 47 => 0xc4ac5665
    case 48 => 0xf4292244
    case 49 => 0x432aff97
    case 50 => 0xab9423a7
    case 51 => 0xfc93a039
    case 52 => 0x655b59c3
    case 53 => 0x8f0ccc92
    case 54 => 0xffeff47d
    case 55 => 0x85845dd1
    case 56 => 0x6fa87e4f
    case 57 => 0xfe2ce6e0
    case 58 => 0xa3014314
    case 59 => 0x4e0811a1
    case 60 => 0xf7537e82
    case 61 => 0xbd3af235
    case 62 => 0x2ad7d2bb
    case _ => 0xeb86d391
  }

  /** Which auxiliary function step i uses: one a round. */
  function Mix(i: nat, b: word, c: word, d: word): word {
    if i < 16 then F(b, c, d) else if i < 32 then G(b, c, d) else if i < 48 then H(b, c, d) else I(b, c, d)
  }

  /** Which word of the block step i uses. */
  function WordIndex(i: nat): (k: nat)
    ensures k < 16
  {
    if i < 16 then i % 16
    else if i < 32 then (5 * i + 1) % 16
    else if i < 48 then (3 * i + 5) % 16
    else (7 * i) % 16
  }

  /** By how much step i rotates. */
  function Shift(i: nat): (s: nat)
    ensures 0 < s < 32
  {
    if i < 16 then (match i % 4 case 0 => 7 case 1 => 12 case 2 => 17 case _ => 22)
    else if i < 32 then (match i % 4 case 0 => 5 case 1 => 9 case 2 => 14 case _ => 20)
    else if i < 48 then (match i % 4 case 0 => 4 case 1 => 11 case 2 => 16 case _ => 23)
    else (match i % 4 case 0 => 6 case 1 => 10 case 2 => 15 case _ => 21)
  }

  /** Step i on the registers named as in the first step: the result goes to the register whose turn
      it is, in the order a, d, c, b. */
  function Step(r: State, x: seq<word>, i: nat): State
    requires |x| == 16
  {
    var k, s, t := x[WordIndex(i)], Shift(i), T(i);
    match i % 4
    case 0 => r.(a := Op(Mix(i, r.b, r.c, r.d), r.a, r.b, k, s, t))
    case 1 => r.(d := Op(Mix(i, r.a, r.b, r.c), r.d, r.a, k, s, t))
    case 2 => r.(c := Op(Mix(i, r.d, r.a, r.b), r.c, r.d, k, s, t))
    case _ => r.(b := Op(Mix(i, r.c, r.d, r.a), r.b, r.c, k, s, t))
  }

  /** The first n of the 64 steps. */
  function Steps(state: State, x: seq<word>, n: nat): State
    requires |x| == 16
  {
    if n == 0 then state else Step(Steps(state, x, n - 1), x, n - 1)
  }

  function ToWord(s: Str): word
    requires |s| == 4
  {
    FromLEBound(s);
    Pow256Values();
    FromLE(s) as word
  }

  /** The sixteen little-endian words of a block. */
  function Words(block: Str): (x: seq<word>)
    requires |block| == 64
    ensures |x| == 16
  {
    seq(16, j requires 0 <= j < 16 => ToWord(block[4 * j..4 * j + 4]))
  }

  function AddStates(s: State, r: State): State {
    State(s.a + r.a, s.b + r.b, s.c + r.c, s.d + r.d)
  }

  /** The processing of one 64-byte block. */
  function Compress(state: State, block: Str): State
    requires |block| == 64
  {
    var x := Words(block);
    var r := Steps(state, x, 4 * |x|);
    AddStates(state, r)
  }

  /** The state after a message of whole blocks. */
  function ProcessBlocks(m: Str): State
    requires |m| % 64 == 0
    decreases |m|
  {
    if m == [] then INIT
    else
      assert |m| >= 64;
      Compress(ProcessBlocks(m[..|m| - 64]), m[|m| - 64..])
  }

  // ---------------------------------------------------------------- sections 3.1, 3.2 and 3.5

  /** How many padding bytes bring a message to 56 modulo 64, at least one. */
  function PadLength(len: nat): (p: nat)
    ensures 1 <= p <= 64
  {
    PadFor(len % 64)
  }

  function PadFor(index: nat): (p: nat)
    requires index < 64
    ensures 1 <= p <= 64
  {
    if index < 56 then 56 - index else 120 - index
  }

  function Padding(n: nat): (p: Str)
    requires n >= 1
    ensures |p| == n
  {
    [0x80] + Zeros(n - 1)
  }

  function Padded(m: Str): (p: Str)
    ensures |p| % 64 == 0
  {
    PaddedIsWhole(|m|);
    m + Padding(PadLength(|m|)) + ToLE((8 * |m|) % TWO64, 8)
  }

  lemma PaddedIsWhole(len: nat)
    ensures (len + PadLength(len)) % 64 == 56 && (len + PadLength(len) + 8) % 64 == 0
  {
    var q := len / 64;
    assert len == 64 * q + len % 64;
    var q' := if PadLength(len) == 56 - len % 64 then q else q + 1;
    ModUnique(len + PadLength(len), 64, q', 56);
    ModUnique(len + PadLength(len) + 8, 64, q' + 1, 0);
  }

  lemma PaddedLength(m: Str)
    ensures |Padded(m)| == |m| + PadLength(|m|) + 8
  {
    hide Padding, ToLE;
  }

  /** Sections 3.1 and 3.2 byte by byte: the message, one byte 0x80, zeros, and the bit count. */
  lemma PaddedAt(m: Str, i: nat)
    requires i < |Padded(m)|
    ensures |Padded(m)| >= |m| + 9
    ensures Padded(m)[i] ==
            if i < |m| then m[i]
            else if i == |m| then 0x80
            else if i < |Padded(m)| - 8 then 0
            else ToLE((8 * |m|) % TWO64, 8)[i - (|Padded(m)| - 8)]
  {
    PaddedLength(m);
    hide ToLE, PadLength;
  }

  function EncodeState(s: State): (d: Str)
    ensures |d| == 16
  {
    ToLE(s.a as nat, 4) + ToLE(s.b as nat, 4) + ToLE(s.c as nat, 4) + ToLE(s.d as nat, 4)
  }

  /** The digest of a whole message, by the standard's own description. */
  function Digest(m: Str): (d: Str)
    ensures |d| == 16
  {
    EncodeState(ProcessBlocks(Padded(m)))
  }

  // ---------------------------------------------------------------- MD5Transform

  function FF(a: word, b: word, c: word, d: word, x: word, s: nat, ac: word): word requires 0 < s < 32 { Op(F(b, c, d), a, b, x, s, ac) }
  function GG(a: word, b: word, c: word, d: word, x: word, s: nat, ac: word): word requires 0 < s < 32 { Op(G(b, c, d), a, b, x, s, ac) }
  function HH(a: word, b: word, c: word, d: word, x: word, s: nat, ac: word): word requires 0 < s < 32 { Op(H(b, c, d), a, b, x, s, ac) }
  function II(a: word, b: word, c: word, d: word, x: word, s: nat, ac: word): word requires 0 < s < 32 { Op(I(b, c, d), a, b, x, s, ac) }

  /** Four steps write the registers a, d, c and b in turn. */
  lemma FourSteps(state: State, x: seq<word>, n: nat)
    requires |x| == 16 && n % 4 == 0
    ensures var r := Steps(state, x, n);
            var a := Op(Mix(n, r.b, r.c, r.d), r.a, r.b, x[WordIndex(n)], Shift(n), T(n));
            var d := Op(Mix(n + 1, a, r.b, r.c), r.d, a, x[WordIndex(n + 1)], Shift(n + 1), T(n + 1));
            var c := Op(Mix(n + 2, d, a, r.b), r.c, d, x[WordIndex(n + 2)], Shift(n + 2), T(n + 2));
            var b := Op(Mix(n + 3, c, d, a), r.b, c, x[WordIndex(n + 3)], Shift(n + 3), T(n + 3));
            Steps(state, x, n + 4) == State(a, b, c, d)
  {
    hide *;
    ModUnique(n + 1, 4, n / 4, 1);
    ModUnique(n + 2, 4, n / 4, 2);
    ModUnique(n + 3, 4, n / 4, 3);
    OneStep(state, x, n);
    OneStep(state, x, n + 1);
    OneStep(state, x, n + 2);
    OneStep(state, x, n + 3);
    StepWrites(Steps(state, x, n), x, n);
    StepWrites(Steps(state, x, n + 1), x, n + 1);
    StepWrites(Steps(state, x, n + 2), x, n + 2);
    StepWrites(Steps(state, x, n + 3), x, n + 3);
  }

  /** The one register that a step writes. */
  lemma StepWrites(r: State, x: seq<word>, i: nat)
    requires |x| == 16
    ensures var k, s, t := x[WordIndex(i)], Shift(i), T(i);
            Step(r, x, i) ==
            if i % 4 == 0 then State(Op(Mix(i, r.b, r.c, r.d), r.a, r.b, k, s, t), r.b, r.c, r.d)
            else if i % 4 == 1 then State(r.a, r.b, r.c, Op(Mix(i, r.a, r.b, r.c), r.d, r.a, k, s, t))
            else if i % 4 == 2 then State(r.a, r.b, Op(Mix(i, r.d, r.a, r.b), r.c, r.d, k, s, t), r.d)
            else State(r.a, Op(Mix(i, r.c, r.d, r.a), r.b, r.c, k, s, t), r.c, r.d)
  {
    hide T, WordIndex, Shift, Mix, Op;
  }

  lemma OneStep(state: State, x: seq<word>, n: nat)
    requires |x| == 16
    ensures Steps(state, x, n + 1) == Step(Steps(state, x, n), x, n)
  {
    hide Step;
  }

  /** The word order, rotations and constants of round 1. */
  lemma Round1Constants()
    ensures forall i, b, c, d {:trigger Mix(i, b, c, d)} :: 0 <= i < 16 ==> Mix(i, b, c, d) == F(b, c, d)
    ensures WordIndex(0) == 0 && WordIndex(1) == 1 && WordIndex(2) == 2 && WordIndex(3) == 3
    ensures WordIndex(4) == 4 && WordIndex(5) == 5 && WordIndex(6) == 6 && WordIndex(7) == 7
    ensures WordIndex(8) == 8 && WordIndex(9) == 9 && WordIndex(10) == 10 && WordIndex(11) == 11
    ensures WordIndex(12) == 12 && WordIndex(13) == 13 && WordIndex(14) == 14 && WordIndex(15) == 15
    ensures Shift(0) == 7 && Shift(1) == 12 && Shift(2) == 17 && Shift(3) == 22 && Shift(4) == 7 && Shift(5) == 12 && Shift(6) == 17 && Shift(7) == 22
    ensures Shift(8) == 7 && Shift(9) == 12 && Shift(10) == 17 && Shift(11) == 22 && Shift(12) == 7 && Shift(13) == 12 && Shift(14) == 17 && Shift(15) == 22
    ensures T(0) == 0xd76aa478 && T(1) == 0xe8c7b756 && T(2) == 0x242070db && T(3) == 0xc1bdceee
    ensures T(4) == 0xf57c0faf && T(5) == 0x4787c62a && T(6) == 0xa8304613 && T(7) == 0xfd469501
    ensures T(8) == 0x698098d8 && T(9) == 0x8b44f7af && T(10) == 0xffff5bb1 && T(11) == 0x895cd7be
    ensures T(12) == 0x6b901122 && T(13) == 0xfd987193 && T(14) == 0xa679438e && T(15) == 0x49b40821
  {
  }

  /** The word order, rotations and constants of round 2. */
  lemma Round2Constants()
    ensures forall i, b, c, d {:trigger Mix(i, b, c, d)} :: 16 <= i < 32 ==> Mix(i, b, c, d) == G(b, c, d)
    ensures WordIndex(16) == 1 && WordIndex(17) == 6 && WordIndex(18) == 11 && WordIndex(19) == 0
    ensures WordIndex(20) == 5 && WordIndex(21) == 10 && WordIndex(22) == 15 && WordIndex(23) == 4
    ensures WordIndex(24) == 9 && WordIndex(25) == 14 && WordIndex(26) == 3 && WordIndex(27) == 8
    ensures WordIndex(28) == 13 && WordIndex(29) == 2 && WordIndex(30) == 7 && WordIndex(31) == 12
    ensures Shift(16) == 5 && Shift(17) == 9 && Shift(18) == 14 && Shift(19) == 20 && Shift(20) == 5 && Shift(21) == 9 && Shift(22) == 14 && Shift(23) == 20
    ensures Shift(24) == 5 && Shift(25) == 9 && Shift(26) == 14 && Shift(27) == 20 && Shift(28) == 5 && Shift(29) == 9 && Shift(30) == 14 && Shift(31) == 20
    ensures T(16) == 0xf61e2562 && T(17) == 0xc040b340 && T(18) == 0x265e5a51 && T(19) == 0xe9b6c7aa
    ensures T(20) == 0xd62f105d && T(21) == 0x2441453 && T(22) == 0xd8a1e681 && T(23) == 0xe7d3fbc8
    ensures T(24) == 0x21e1cde6 && T(25) == 0xc33707d6 && T(26) == 0xf4d50d87 && T(27) == 0x455a14ed
    ensures T(28) == 0xa9e3e905 && T(29) == 0xfcefa3f8 && T(30) == 0x676f02d9 && T(31) == 0x8d2a4c8a
  {
  }

  /** The word order, rotations and constants of round 3. */
  lemma Round3Constants()
    ensures forall i, b, c, d {:trigger Mix(i, b, c, d)} :: 32 <= i < 48 ==> Mix(i, b, c, d) == H(b, c, d)
    ensures WordIndex(32) == 5 && WordIndex(33) == 8 && WordIndex(34) == 11 && WordIndex(35) == 14
    ensures WordIndex(36) == 1 && WordIndex(37) == 4 && WordIndex(38) == 7 && WordIndex(39) == 10
    ensures WordIndex(40) == 13 && WordIndex(41) == 0 && WordIndex(42) == 3 && WordIndex(43) == 6
    ensures WordIndex(44) == 9 && WordIndex(45) == 12 && WordIndex(46) == 15 && WordIndex(47) == 2
    ensures Shift(32) == 4 && Shift(33) == 11 && Shift(34) == 16 && Shift(35) == 23 && Shift(36) == 4 && Shift(37) == 11 && Shift(38) == 16 && Shift(39) == 23
    ensures Shift(40) == 4 && Shift(41) == 11 && Shift(42) == 16 && Shift(43) == 23 && Shift(44) == 4 && Shift(45) == 11 && Shift(46) == 16 && Shift(47) == 23
    ensures T(32) == 0xfffa3942 && T(33) == 0x8771f681 && T(34) == 0x6d9d6122 && T(35) == 0xfde5380c
    ensures T(36) == 0xa4beea44 && T(37) == 0x4bdecfa9 && T(38) == 0xf6bb4b60 && T(39) == 0xbebfbc70
    ensures T(40) == 0x289b7ec6 && T(41) == 0xeaa127fa && T(42) == 0xd4ef3085 && T(43) == 0x4881d05
    ensures T(44) == 0xd9d4d039 && T(45) == 0xe6db99e5 && T(46) == 0x1fa27cf8 && T(47) == 0xc4ac5665
  {
  }

  /** The word order, rotations and constants of round 4. */
  lemma Round4Constants()
    ensures forall i, b, c, d {:trigger Mix(i, b, c, d)} :: 48 <= i < 64 ==> Mix(i, b, c, d) == I(b, c, d)
    ensures WordIndex(48) == 0 && WordIndex(49) == 7 && WordIndex(50) == 14 && WordIndex(51) == 5
    ensures WordIndex(52) == 12 && WordIndex(53) == 3 && WordIndex(54) == 10 && WordIndex(55) == 1
    ensures WordIndex(56) == 8 && WordIndex(57) == 15 && WordIndex(58) == 6 && WordIndex(59) == 13
    ensures WordIndex(60) == 4 && WordIndex(61) == 11 && WordIndex(62) == 2 && WordIndex(63) == 9
    ensures Shift(48) == 6 && Shift(49) == 10 && Shift(50) == 15 && Shift(51) == 21 && Shift(52) == 6 && Shift(53) == 10 && Shift(54) == 15 && Shift(55) == 21
    ensures Shift(56) == 6 && Shift(57) == 10 && Shift(58) == 15 && Shift(59) == 21 && Shift(60) == 6 && Shift(61) == 10 && Shift(62) == 15 && Shift(63) == 21
    ensures T(48) == 0xf4292244 && T(49) == 0x432aff97 && T(50) == 0xab9423a7 && T(51) == 0xfc93a039
    ensures T(52) == 0x655b59c3 && T(53) == 0x8f0ccc92 && T(54) == 0xffeff47d && T(55) == 0x85845dd1
    ensures T(56) == 0x6fa87e4f && T(57) == 0xfe2ce6e0 && T(58) == 0xa3014314 && T(59) == 0x4e0811a1
    ensures T(60) == 0xf7537e82 && T(61) == 0xbd3af235 && T(62) == 0x2ad7d2bb && T(63) == 0xeb86d391
  {
  }

  /** Round 1: steps 0 to 15. */
  method Round1(ghost state: State, r: State, x: seq<word>, ghost n: nat) returns (r': State)
    requires |x| == 16 && n == 0 && r == Steps(state, x, n)
    ensures r' == Steps(state, x, n + 16)
  {
    Round1Constants();
    hide T, WordIndex, Shift, Mix, Op, F, G, H, I, Step, Steps;
    var a, b, c, d := r.a, r.b, r.c, r.d;
    a := FF(a, b, c, d, x[0], 7, 0xd76aa478);
    d := FF(d, a, b, c, x[1], 12, 0xe8c7b756);
    c := FF(c, d, a, b, x[2], 17, 0x242070db);
    b := FF(b, c, d, a, x[3], 22, 0xc1bdceee);
    FourSteps(state, x, 0);
    assert State(a, b, c, d) == Steps(state, x, 4);
    a := FF(a, b, c, d, x[4], 7, 0xf57c0faf);
    d := FF(d, a, b, c, x[5], 12, 0x4787c62a);
    c := FF(c, d, a, b, x[6], 17, 0xa8304613);
    b := FF(b, c, d, a, x[7], 22, 0xfd469501);
    FourSteps(state, x, 4);
    assert State(a, b, c, d) == Steps(state, x, 8);
    a := FF(a, b, c, d, x[8], 7, 0x698098d8);
    d := FF(d, a, b, c, x[9], 12, 0x8b44f7af);
    c := FF(c, d, a, b, x[10], 17, 0xffff5bb1);
    b := FF(b, c, d, a, x[11], 22, 0x895cd7be);
    FourSteps(state, x, 8);
    assert State(a, b, c, d) == Steps(state, x, 12);
    a := FF(a, b, c, d, x[12], 7, 0x6b901122);
    d := FF(d, a, b, c, x[13], 12, 0xfd987193);
    c := FF(c, d, a, b, x[14], 17, 0xa679438e);
    b := FF(b, c, d, a, x[15], 22, 0x49b40821);
    FourSteps(state, x, 12);
    assert State(a, b, c, d) == Steps(state, x, 16);
    r' := State(a, b, c, d);
  }

  /** Round 2: steps 16 to 31. */
  method Round2(ghost state: State, r: State, x: seq<word>, ghost n: nat) returns (r': State)
    requires |x| == 16 && n == 16 && r == Steps(state, x, n)
    ensures r' == Steps(state, x, n + 16)
  {
    Round2Constants();
    hide T, WordIndex, Shift, Mix, Op, F, G, H, I, Step, Steps;
    var a, b, c, d := r.a, r.b, r.c, r.d;
    a := GG(a, b, c, d, x[1], 5, 0xf61e2562);
    d := GG(d, a, b, c, x[6], 9, 0xc040b340);
    c := GG(c, d, a, b, x[11], 14, 0x265e5a51);
    b := GG(b, c, d, a, x[0], 20, 0xe9b6c7aa);
    FourSteps(state, x, 16);
    assert State(a, b, c, d) == Steps(state, x, 20);
    a := GG(a, b, c, d, x[5], 5, 0xd62f105d);
    d := GG(d, a, b, c, x[10], 9, 0x2441453);
    c := GG(c, d, a, b, x[15], 14, 0xd8a1e681);
    b := GG(b, c, d, a, x[4], 20, 0xe7d3fbc8);
    FourSteps(state, x, 20);
    assert State(a, b, c, d) == Steps(state, x, 24);
    a := GG(a, b, c, d, x[9], 5, 0x21e1cde6);
    d := GG(d, a, b, c, x[14], 9, 0xc33707d6);
    c := GG(c, d, a, b, x[3], 14, 0xf4d50d87);
    b := GG(b, c, d, a, x[8], 20, 0x455a14ed);
    FourSteps(state, x, 24);
    assert State(a, b, c, d) == Steps(state, x, 28);
    a := GG(a, b, c, d, x[13], 5, 0xa9e3e905);
    d := GG(d, a, b, c, x[2], 9, 0xfcefa3f8);
    c := GG(c, d, a, b, x[7], 14, 0x676f02d9);
    b := GG(b, c, d, a, x[12], 20, 0x8d2a4c8a);
    FourSteps(state, x, 28);
    assert State(a, b, c, d) == Steps(state, x, 32);
    r' := State(a, b, c, d);
  }

  /** Round 3: steps 32 to 47. */
  method Round3(ghost state: State, r: State, x: seq<word>, ghost n: nat) returns (r': State)
    requires |x| == 16 && n == 32 && r == Steps(state, x, n)
    ensures r' == Steps(state, x, n + 16)
  {
    Round3Constants();
    hide T, WordIndex, Shift, Mix, Op, F, G, H, I, Step, Steps;
    var a, b, c, d := r.a, r.b, r.c, r.d;
    a := HH(a, b, c, d, x[5], 4, 0xfffa3942);
    d := HH(d, a, b, c, x[8], 11, 0x8771f681);
    c := HH(c, d, a, b, x[11], 16, 0x6d9d6122);
    b := HH(b, c, d, a, x[14], 23, 0xfde5380c);
    FourSteps(state, x, 32);
    assert State(a, b, c, d) == Steps(state, x, 36);
    a := HH(a, b, c, d, x[1], 4, 0xa4beea44);
    d := HH(d, a, b, c, x[4], 11, 0x4bdecfa9);
    c := HH(c, d, a, b, x[7], 16, 0xf6bb4b60);
    b := HH(b, c, d, a, x[10], 23, 0xbebfbc70);
    FourSteps(state, x, 36);
    assert State(a, b, c, d) == Steps(state, x, 40);
    a := HH(a, b, c, d, x[13], 4, 0x289b7ec6);
    d := HH(d, a, b, c, x[0], 11, 0xeaa127fa);
    c := HH(c, d, a, b, x[3], 16, 0xd4ef3085);
    b := HH(b, c, d, a, x[6], 23, 0x4881d05);
    FourSteps(state, x, 40);
    assert State(a, b, c, d) == Steps(state, x, 44);
    a := HH(a, b, c, d, x[9], 4, 0xd9d4d039);
    d := HH(d, a, b, c, x[12], 11, 0xe6db99e5);
    c := HH(c, d, a, b, x[15], 16, 0x1fa27cf8);
    b := HH(b, c, d, a, x[2], 23, 0xc4ac5665);
    FourSteps(state, x, 44);
    assert State(a, b, c, d) == Steps(state, x, 48);
    r' := State(a, b, c, d);
  }

  /** Round 4: steps 48 to 63. */
  method Round4(ghost state: State, r: State, x: seq<word>, ghost n: nat) returns (r': State)
    requires |x| == 16 && n == 48 && r == Steps(state, x, n)
    ensures r' == Steps(state, x, n + 16)
  {
    Round4Constants();
    hide T, WordIndex, Shift, Mix, Op, F, G, H, I, Step, Steps;
    var a, b, c, d := r.a, r.b, r.c, r.d;
    a := II(a, b, c, d, x[0], 6, 0xf4292244);
    d := II(d, a, b, c, x[7], 10, 0x432aff97);
    c := II(c, d, a, b, x[14], 15, 0xab9423a7);
    b := II(b, c, d, a, x[5], 21, 0xfc93a039);
    FourSteps(state, x, 48);
    assert State(a, b, c, d) == Steps(state, x, 52);
    a := II(a, b, c, d, x[12], 6, 0x655b59c3);
    d := II(d, a, b, c, x[3], 10, 0x8f0ccc92);
    c := II(c, d, a, b, x[10], 15, 0xffeff47d);
    b := II(b, c, d, a, x[1], 21, 0x85845dd1);
    FourSteps(state, x, 52);
    assert State(a, b, c, d) == Steps(state, x, 56);
    a := II(a, b, c, d, x[8], 6, 0x6fa87e4f);
    d := II(d, a, b, c, x[15], 10, 0xfe2ce6e0);
    c := II(c, d, a, b, x[6], 15, 0xa3014314);
    b := II(b, c, d, a, x[13], 21, 0x4e0811a1);
    FourSteps(state, x, 56);
    assert State(a, b, c, d) == Steps(state, x, 60);
    a := II(a, b, c, d, x[4], 6, 0xf7537e82);
    d := II(d, a, b, c, x[11], 10, 0xbd3af235);
    c := II(c, d, a, b, x[2], 15, 0x2ad7d2bb);
    b := II(b, c, d, a, x[9], 21, 0xeb86d391);
    FourSteps(state, x, 60);
    assert State(a, b, c, d) == Steps(state, x, 64);
    r' := State(a, b, c, d);
  }

  lemma NoSteps(state: State, x: seq<word>) returns (n: nat)
    requires |x| == 16
    ensures n == 0 && Steps(state, x, n) == state
  {
    n := 0;
  }

  /** The unrolled transform is the 64 steps of the standard. */
  method MD5Transform(state: State, block: Str) returns (state': State)
    requires |block| == 64
    ensures state' == Compress(state, block)
  {
    hide Words;
    var x := Words(block);
    ghost var n: nat := NoSteps(state, x);
    var r := Round1(state, state, x, n);
    r := Round2(state, r, x, n + 16);
    r := Round3(state, r, x, n + 32);
    r := Round4(state, r, x, n + 48);
    hide AddStates, Steps;
    state' := AddStates(state, r);
  }

  // ---------------------------------------------------------------- the streaming context

  /** The bytes of a message that fill whole blocks. */
  function WholeBlocks(m: Str): (w: Str)
    ensures w <= m && |w| % 64 == 0 && |m| - |w| == |m| % 64
  {
    ModUnique(64 * (|m| / 64), 64, |m| / 64, 0);
    m[..64 * (|m| / 64)]
  }

  /** One more block after whole blocks. */
  lemma ProcessNext(m: Str, block: Str)
    requires |m| % 64 == 0 && |block| == 64
    ensures |m + block| % 64 == 0
    ensures ProcessBlocks(m + block) == Compress(ProcessBlocks(m), block)
  {
    hide Compress;
    ModUnique(|m| + 64, 64, |m| / 64 + 1, 0);
    assert (m + block)[..|m|] == m && (m + block)[|m|..] == block;
  }

  /** The two-word bit counter after `len` more bytes. */
  lemma CountAdds(count0: nat, count1: nat, before: nat, len: nat)
    requires count0 < TWO32 && count1 < TWO32 && len < TWO32
    requires count0 + TWO32 * count1 == (8 * before) % TWO64
    ensures var bits := (len * 8) % TWO32;
            var c0 := (count0 + bits) % TWO32;
            var carry := if c0 < bits then 1 else 0;
            var c1 := ((count1 + carry) % TWO32 + len / 0x2000_0000) % TWO32;
            c0 + TWO32 * c1 == (8 * (before + len)) % TWO64
  {
    var bits, high := (len * 8) % TWO32, len / 0x2000_0000;
    assert 8 * len == bits + TWO32 * high;
    var c0 := (count0 + bits) % TWO32;
    var carry := if c0 < bits then 1 else 0;
    assert count0 + bits == c0 + TWO32 * carry;
    var sum := count1 + carry + high;
    var c1 := sum % TWO32;
    assert ((count1 + carry) % TWO32 + high) % TWO32 == c1;
    WordsAdd(count0, count1, before, bits, high, c0, carry, len);
  }

  lemma WordsAdd(count0: nat, count1: nat, before: nat, bits: nat, high: nat, c0: nat, carry: nat, len: nat)
    requires count0 + TWO32 * count1 == (8 * before) % TWO64 && 8 * len == bits + TWO32 * high
    requires count0 + bits == c0 + TWO32 * carry && c0 < TWO32
    ensures c0 + TWO32 * ((count1 + carry + high) % TWO32) == (8 * (before + len)) % TWO64
  {
    var sum, q := count1 + carry + high, (8 * before) / TWO64;
    var c1, k := sum % TWO32, sum / TWO32;
    assert 8 * before == TWO64 * q + (count0 + TWO32 * count1);
    assert sum == TWO32 * k + c1;
    assert 8 * (before + len) == TWO64 * (q + k) + (c0 + TWO32 * c1);
    ModUnique(8 * (before + len), TWO64, q + k, c0 + TWO32 * c1);
  }

  /** `(count[0] >> 3) & 0x3f`. */
  function BufferIndex(count0: nat): (i: nat)
    ensures i < 64
  {
    (count0 / 8) % 64
  }

  /** The buffer index is the length modulo 64. */
  lemma IndexIsLength(count0: nat, count1: nat, len: nat)
    requires count0 < TWO32 && count0 + TWO32 * count1 == (8 * len) % TWO64
    ensures BufferIndex(count0) == len % 64
  {
    var q := (8 * len) / TWO64;
    assert 8 * len == TWO64 * q + count0 + TWO32 * count1;
    var k := 0x2000_0000_0000_0000 * q + 0x2000_0000 * count1;
    assert TWO64 * q + TWO32 * count1 == 8 * k;
    assert count0 == 8 * (len - k);
    var j := 0x0080_0000_0000_0000 * q + 0x0080_0000 * count1;
    assert k == 64 * j;
    ModUnique(count0, 8, len - k, 0);
    var r := (len - k) % 64;
    ModUnique(len, 64, j + (len - k) / 64, r);
  }

  /** Two words written one after the other are the 64-bit number they make. */
  lemma CountBytes(count0: nat, count1: nat)
    requires count0 < TWO32 && count1 < TWO32
    ensures ToLE(count0, 4) + ToLE(count1, 4) == ToLE(count0 + TWO32 * count1, 8)
  {
    Pow256Values();
    hide ToLE, FromLE, Pow256;
    var s := ToLE(count0, 4) + ToLE(count1, 4);
    FromLEAppend(ToLE(count0, 4), ToLE(count1, 4));
    RoundTripLE(count0, 4);
    RoundTripLE(count1, 4);
    ToFromLE(s);
  }

  /** The index behind the last whole block, and 63 more, is still a 32-bit number. */
  predicate NoWrap(before: nat, len: nat) {
    len + 63 - (before + len) % 64 < TWO32
  }

  lemma ShortInput(before: nat, len: nat)
    requires len <= TWO32 - 64
    ensures len < TWO32 && NoWrap(before, len)
  {
  }

  lemma BelowWrap(before: nat, len: nat, done: nat, i: nat)
    requires NoWrap(before, len) && done % 64 == 0 && i <= len && done + (len - i) == before + len
    ensures i + 63 < TWO32 && (i + 63) % TWO32 == i + 63
  {
    var q := done / 64;
    ModUnique(before + len, 64, q + (len - i) / 64, (len - i) % 64);
    ModUnique(i + 63, TWO32, 0, i + 63);
  }

  /** Behind the last whole block the loop's test fails, as it should, if and only if there is no wrap. */
  lemma LoopStopsIff(before: nat, len: nat)
    requires 64 <= len < TWO32
    ensures var last := len - (before + len) % 64;
            (last + 63) % TWO32 >= len <==> NoWrap(before, len)
  {
    var last := len - (before + len) % 64;
    if last + 63 < TWO32 {
      ModUnique(last + 63, TWO32, 0, last + 63);
    } else {
      ModUnique(last + 63, TWO32, 1, last + 63 - TWO32);
    }
  }

  class Md5Context {
    var state: State
    var count0: nat
    var count1: nat
    const buffer: array<byte>
    ghost var message: Str

    /** The context is a function of the message fed so far, not of how it was cut. */
    ghost predicate Valid()
      reads this, buffer
    {
      && buffer.Length == 64
      && count0 < TWO32 && count1 < TWO32
      && count0 + TWO32 * count1 == (8 * |message|) % TWO64
      && state == ProcessBlocks(WholeBlocks(message))
      && buffer[..|message| % 64] == message[|WholeBlocks(message)|..]
    }

    constructor ()
      ensures Valid() && message == [] && fresh(buffer)
    {
      state := INIT;
      count0, count1 := 0, 0;
      buffer := new byte[64](_ => 0);
      message := [];
    }

    /** Copies input bytes into the block buffer (`memcpy`). */
    method CopyIn(index: nat, input: Str)
      requires index + |input| <= buffer.Length
      modifies buffer
      ensures buffer[..] == old(buffer[..index]) + input + old(buffer[index + |input|..])
    {
      for i := 0 to |input|
        invariant buffer[..] == old(buffer[..index]) + input[..i] + old(buffer[index + i..])
      {
        buffer[index + i] := input[i];
      }
    }

    /** The counter of `zim_MD5Update`: bits added to the low word, the carry and the high bits to the
        high word. */
    method AddCount(len: nat)
      requires count0 < TWO32 && count1 < TWO32 && len < TWO32
      requires count0 + TWO32 * count1 == (8 * |message|) % TWO64
      modifies this`count0, this`count1
      ensures count0 < TWO32 && count1 < TWO32
      ensures count0 + TWO32 * count1 == (8 * (|message| + len)) % TWO64
    {
      CountAdds(count0, count1, |message|, len);
      var bits := (len * 8) % TWO32;
      count0 := (count0 + bits) % TWO32;
      if count0 < bits { count1 := (count1 + 1) % TWO32; }
      count1 := (count1 + len / 0x2000_0000) % TWO32;
    }

    /** `zim_MD5Update`, for every length on which the block loop's 32-bit `i + 63` does not wrap. */
    method Update(input: Str)
      requires Valid() && |input| < TWO32 && NoWrap(|message|, |input|)
      modifies this, buffer
      ensures Valid() && message == old(message) + input
    {
      HoldsBefore();
      hide *;
      ghost var before, w := message, WholeBlocks(message);
      var index := BufferIndex(count0);
      AddCount(|input|);
      var index', i, state' := Absorb(index, input, before, w);
      state := state';
      message := before + input;
      HoldsAfter();
    }

    lemma HoldsBefore()
      requires Valid()
      ensures buffer.Length == 64 && count0 < TWO32 && count1 < TWO32 && count0 + TWO32 * count1 == (8 * |message|) % TWO64
      ensures BufferIndex(count0) == |message| % 64
      ensures state == ProcessBlocks(WholeBlocks(message)) && buffer[..|message| % 64] == message[|WholeBlocks(message)|..]
    {
      hide ProcessBlocks;
      IndexIsLength(count0, count1, |message|);
    }

    lemma HoldsAfter()
      requires buffer.Length == 64 && count0 < TWO32 && count1 < TWO32 && count0 + TWO32 * count1 == (8 * |message|) % TWO64
      requires state == ProcessBlocks(WholeBlocks(message)) && buffer[..|message| % 64] == message[|WholeBlocks(message)|..]
      ensures Valid()
    {
      hide ProcessBlocks;
    }

    /** The part of `zim_MD5Update` after the counter: fills the buffer, transforms every whole block,
        and buffers what remains. `w` is the part of the message already transformed. */
    method Absorb(index: nat, input: Str, ghost before: Str, ghost w: Str) returns (index': nat, i: nat, state': State)
      requires buffer.Length == 64 && w == WholeBlocks(before) && index == |before| % 64
      requires state == ProcessBlocks(w) && buffer[..index] == before[|w|..]
      requires |input| < TWO32 && NoWrap(|before|, |input|)
      modifies buffer
      ensures state' == ProcessBlocks(WholeBlocks(before + input))
      ensures buffer[..|before + input| % 64] == (before + input)[|WholeBlocks(before + input)|..]
    {
      hide *;
      state' := state;
      ghost var done, message := w, before + input;
      var partLen := 64 - index;
      i, index' := 0, index;
      Rejoin(before, w, input);
      if |input| >= partLen {
        CopyIn(index, input[..partLen]);
        FirstBlock(before, w, input, partLen, buffer[..]);
        state' := MD5Transform(state', buffer[..]);
        done := w + buffer[..];
        i := partLen;
        BelowWrap(|before|, |input|, |done|, i);
        while (i + 63) % TWO32 < |input|
          invariant partLen <= i <= |input| && i + 63 < TWO32 && (i + 63) % TWO32 == i + 63
          invariant |done| % 64 == 0 && state' == ProcessBlocks(done) && done + input[i..] == message
          decreases |input| - i
        {
          NextBlock(done, input, i);
          state' := MD5Transform(state', input[i..i + 64]);
          done := done + input[i..i + 64];
          i := i + 64;
          BelowWrap(|before|, |input|, |done|, i);
        }
        index' := 0;
        assert done + buffer[..0] + input[i..] == message by { assert done + [] == done; }
      }
      CopyIn(index', input[i..]);
      BufferedRest(message, done, buffer[..], index' + |input| - i);
    }

    /** `zim_MD5Final`: pads, appends the length before padding, and clears the context. */
    method Final() returns (digest: Str)
      requires Valid()
      modifies this, buffer
      ensures digest == Digest(old(message))
      ensures count0 == 0 && count1 == 0 && state == State(0, 0, 0, 0) && buffer[..] == Zeros(64)
    {
      ghost var m := message;
      var bits, padLen := Tail();
      ShortInput(|message|, padLen);
      Update(Padding(padLen));
      ShortInput(|message|, 8);
      Update(bits);
      digest := Finished(m);
      Clear();
    }

    /** The length bytes and the padding length that `zim_MD5Final` computes from the counter. */
    method Tail() returns (bits: Str, padLen: nat)
      requires Valid()
      ensures |bits| == 8 && 1 <= padLen <= 64
      ensures message + Padding(padLen) + bits == Padded(message)
    {
      TailPads(message, count0, count1);
      hide *;
      bits := ToLE(count0, 4) + ToLE(count1, 4);
      padLen := PadFor(BufferIndex(count0));
    }

    method Finished(ghost m: Str) returns (digest: Str)
      requires Valid() && message == Padded(m)
      ensures digest == Digest(m)
    {
      WholeBlocksIs(message, message);
      hide WholeBlocks, ProcessBlocks, EncodeState, Padded;
      digest := EncodeState(state);
    }

    method Clear()
      requires buffer.Length == 64
      modifies this, buffer
      ensures count0 == 0 && count1 == 0 && state == State(0, 0, 0, 0) && buffer[..] == Zeros(64)
    {
      for i := 0 to 64
        invariant buffer[..i] == Zeros(i)
      {
        buffer[i] := 0;
      }
      state, count0, count1 := State(0, 0, 0, 0), 0, 0;
    }
  }

  lemma PaddedIs(m: Str, padLen: nat, bits: Str)
    requires padLen == PadLength(|m|) && bits == ToLE((8 * |m|) % TWO64, 8)
    ensures m + Padding(padLen) + bits == Padded(m)
  {
    hide ToLE, Padding, PadLength;
  }

  lemma TailPads(m: Str, count0: nat, count1: nat)
    requires count0 < TWO32 && count1 < TWO32 && count0 + TWO32 * count1 == (8 * |m|) % TWO64
    ensures var padLen := PadFor(BufferIndex(count0));
            m + Padding(padLen) + (ToLE(count0, 4) + ToLE(count1, 4)) == Padded(m)
  {
    IndexIsLength(count0, count1, |m|);
    CountBytes(count0, count1);
    PaddedIs(m, PadLength(|m|), ToLE(count0, 4) + ToLE(count1, 4));
    hide ToLE, Padding, Padded;
  }

  lemma WholeBlocksIs(m: Str, w: Str)
    requires w <= m && |w| % 64 == 0 && |m| - |w| < 64
    ensures WholeBlocks(m) == w && |m| % 64 == |m| - |w|
  {
    ModUnique(|m|, 64, |w| / 64, |m| - |w|);
  }

  lemma Rejoin(before: Str, w: Str, input: Str)
    requires w == WholeBlocks(before)
    ensures |w| % 64 == 0 && w + before[|w|..] + input[0..] == before + input && |before| - |w| == |before| % 64
  {
  }

  lemma FirstBlock(before: Str, w: Str, input: Str, partLen: nat, block: Str)
    requires w == WholeBlocks(before) && partLen == 64 - |before| % 64 && partLen <= |input|
    requires block == before[|w|..] + input[..partLen] || block == before[|w|..] + input[..partLen] + []
    ensures |block| == 64 && |w + block| % 64 == 0 && w + block + input[partLen..] == before + input
    ensures ProcessBlocks(w + block) == Compress(ProcessBlocks(w), block)
  {
    hide *;
    ProcessNext(w, block);
  }

  lemma NextBlock(done: Str, input: Str, i: nat)
    requires |done| % 64 == 0 && i + 64 <= |input|
    ensures |done + input[i..i + 64]| % 64 == 0
    ensures done + input[i..i + 64] + input[i + 64..] == done + input[i..]
    ensures ProcessBlocks(done + input[i..i + 64]) == Compress(ProcessBlocks(done), input[i..i + 64])
  {
    hide *;
    ProcessNext(done, input[i..i + 64]);
  }

  lemma BufferedRest(message: Str, done: Str, buffer: Str, n: nat)
    requires |done| % 64 == 0 && n < 64 && n <= |buffer| && message == done + buffer[..n]
    ensures WholeBlocks(message) == done
    ensures |message| % 64 == n && buffer[..n] == message[|done|..]
  {
    WholeBlocksIs(message, done);
  }

  // ---------------------------------------------------------------- its users

  /** However a message is cut, the digest is that of the whole. */
  method DigestOf(chunks: seq<Str>) returns (digest: Str)
    requires forall i :: 0 <= i < |chunks| ==> |chunks[i]| <= TWO32 - 64
    ensures digest == Digest(Concat(chunks))
  {
    var ctx := new Md5Context();
    for i := 0 to |chunks|
      invariant ctx.Valid() && fresh(ctx) && fresh(ctx.buffer) && ctx.message == Concat(chunks[..i])
    {
      assert chunks[..i + 1] == chunks[..i] + [chunks[i]];
      ConcatSnoc(chunks[..i], chunks[i]);
      ShortInput(|ctx.message|, |chunks[i]|);
      ctx.Update(chunks[i]);
    }
    assert chunks[..|chunks|] == chunks;
    digest := ctx.Final();
  }

  /** The writer's checksum: the file read 1024 bytes at a time until a read returns nothing. */
  method WriterChecksum(file: Str) returns (digest: Str)
    ensures digest == Digest(file)
  {
    hide Digest, NoWrap, ProcessBlocks, WholeBlocks, Md5Context.Valid;
    var ctx := new Md5Context();
    var pos := 0;
    while pos < |file|
      invariant pos <= |file|
      invariant ctx.Valid() && fresh(ctx) && fresh(ctx.buffer) && ctx.message == file[..pos]
    {
      var r := if |file| - pos < 1024 then |file| - pos else 1024;
      assert file[..pos + r] == file[..pos] + file[pos..pos + r];
      ShortInput(|ctx.message|, r);
      ctx.Update(file[pos..pos + r]);
      pos := pos + r;
    }
    assert file[..pos] == file;
    digest := ctx.Final();
  }

  /** The inner loop of `verify`: the bytes of one part, while before the checksum. */
  method HashPart(ctx: Md5Context, part: Str, start: nat, checksumPos: nat, ghost all: Str) returns (currentPos: nat)
    requires ctx.Valid() && start <= checksumPos && start + |part| <= |all|
    requires ctx.message == all[..start] && all[start..start + |part|] == part
    modifies ctx, ctx.buffer
    ensures ctx.Valid() && currentPos == if start + |part| < checksumPos then start + |part| else checksumPos
    ensures ctx.message == all[..currentPos]
  {
    hide *;
    currentPos := start;
    while currentPos - start < |part| && currentPos < checksumPos
      invariant start <= currentPos <= checksumPos && currentPos - start <= |part|
      invariant ctx.Valid() && ctx.message == all[..currentPos]
      decreases |part| - (currentPos - start)
    {
      NextByte(all, part, start, currentPos);
      ShortInput(|ctx.message|, 1);
      ctx.Update([part[currentPos - start]]);
      currentPos := currentPos + 1;
    }
  }

  lemma NextByte(all: Str, part: Str, start: nat, pos: nat)
    requires start <= pos < start + |part| <= |all| && all[start..start + |part|] == part
    ensures all[..pos + 1] == all[..pos] + [part[pos - start]] && 1 <= TWO32 - 64
  {
    assert all[pos] == part[pos - start];
  }

  /** `FileImpl::verify`: hashes byte by byte, part after part, up to the checksum position, and
      compares with the sixteen bytes stored there. */
  method Verify(parts: seq<Str>, checksumPos: nat) returns (ok: bool)
    requires checksumPos + 16 <= |Concat(parts)| || checksumPos > |Concat(parts)|
    ensures ok <==> checksumPos + 16 <= |Concat(parts)| &&
                    Concat(parts)[checksumPos..checksumPos + 16] == Digest(Concat(parts)[..checksumPos])
  {
    var ctx := new Md5Context();
    ghost var all := Concat(parts);
    var currentPos, part := 0, 0;
    hide Digest, Concat, ProcessBlocks, WholeBlocks, Md5Context.Valid;
    assert |Concat(parts[..0])| == 0 by { assert parts[..0] == []; ConcatEmpty(); }
    while part < |parts| && currentPos != checksumPos
      invariant 0 <= part <= |parts| && currentPos <= checksumPos && currentPos <= |all|
      invariant currentPos != checksumPos ==> currentPos == |Concat(parts[..part])|
      invariant ctx.Valid() && fresh(ctx) && fresh(ctx.buffer) && ctx.message == all[..currentPos]
      decreases |parts| - part
    {
      ConcatPart(parts, part);
      currentPos := HashPart(ctx, parts[part], currentPos, checksumPos, all);
      part := part + 1;
    }
    assert parts[..|parts|] == parts;
    if currentPos != checksumPos { return false; }
    var computed := ctx.Final();
    var stored := Concat(parts)[checksumPos..checksumPos + 16];
    ok := stored == computed;
  }

  /** The writer's checksum of everything before the checksum is accepted by the reader, however the
      finished file is divided into parts. */
  method ChecksumAccepted(body: Str, parts: seq<Str>, digest: Str) returns (ok: bool)
    requires digest == Digest(body) && Concat(parts) == body + digest
    ensures ok
  {
    assert Concat(parts)[..|body|] == body && Concat(parts)[|body|..|body| + 16] == digest;
    ok := Verify(parts, |body|);
  }
}
