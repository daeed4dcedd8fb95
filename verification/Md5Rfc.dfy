/** The MD5 block function as section 3.4 of RFC 1321 defines it: 64 steps, each
    rotating the four registers. The table of sines is taken as given. */
module Md5Rfc {

  type Word = bv32

  datatype Regs = Regs(a: Word, b: Word, c: Word, d: Word)

  /** The table of sines, eight a row. */
  function Row(j: nat): (row: seq<Word>)
    requires j < 8
    ensures |row| == 8
  {
    if j == 0 then [0xd76aa478, 0xe8c7b756, 0x242070db, 0xc1bdceee, 0xf57c0faf, 0x4787c62a, 0xa8304613, 0xfd469501]
    else if j == 1 then [0x698098d8, 0x8b44f7af, 0xffff5bb1, 0x895cd7be, 0x6b901122, 0xfd987193, 0xa679438e, 0x49b40821]
    else if j == 2 then [0xf61e2562, 0xc040b340, 0x265e5a51, 0xe9b6c7aa, 0xd62f105d, 0x02441453, 0xd8a1e681, 0xe7d3fbc8]
    else if j == 3 then [0x21e1cde6, 0xc33707d6, 0xf4d50d87, 0x455a14ed, 0xa9e3e905, 0xfcefa3f8, 0x676f02d9, 0x8d2a4c8a]
    else if j == 4 then [0xfffa3942, 0x8771f681, 0x6d9d6122, 0xfde5380c, 0xa4beea44, 0x4bdecfa9, 0xf6bb4b60, 0xbebfbc70]
    else if j == 5 then [0x289b7ec6, 0xeaa127fa, 0xd4ef3085, 0x04881d05, 0xd9d4d039, 0xe6db99e5, 0x1fa27cf8, 0xc4ac5665]
    else if j == 6 then [0xf4292244, 0x432aff97, 0xab9423a7, 0xfc93a039, 0x655b59c3, 0x8f0ccc92, 0xffeff47d, 0x85845dd1]
    else [0x6fa87e4f, 0xfe2ce6e0, 0xa3014314, 0x4e0811a1, 0xf7537e82, 0xbd3af235, 0x2ad7d2bb, 0xeb86d391]
  }

  function T(i: nat): Word
    requires i < 64
  {
    Row(i / 8)[i % 8]
  }

  function F(x: Word, y: Word, z: Word): Word { (x & y) | (!x & z) }
  function G(x: Word, y: Word, z: Word): Word { (x & z) | (y & !z) }
  function H(x: Word, y: Word, z: Word): Word { x ^ y ^ z }
  function I(x: Word, y: Word, z: Word): Word { y ^ (x | !z) }

  /** The word that step i reads. */
  function WordIndex(i: nat): (k: nat)
    requires i < 64
    ensures k < 16
  {
    if i < 16 then i
    else if i < 32 then (5 * i + 1) % 16
    else if i < 48 then (3 * i + 5) % 16
    else (7 * i) % 16
  }

  /** How far step i rotates. */
  function Shift(i: nat): (s: Word)
    requires i < 64
    ensures s <= 32
  {
    var j := i % 4;
    if i < 16 then (if j == 0 then 7 else if j == 1 then 12 else if j == 2 then 17 else 22)
    else if i < 32 then (if j == 0 then 5 else if j == 1 then 9 else if j == 2 then 14 else 20)
    else if i < 48 then (if j == 0 then 4 else if j == 1 then 11 else if j == 2 then 16 else 23)
    else (if j == 0 then 6 else if j == 1 then 10 else if j == 2 then 15 else 21)
  }

  function Mix(i: nat, x: Word, y: Word, z: Word): Word {
    if i < 16 then F(x, y, z) else if i < 32 then G(x, y, z) else if i < 48 then H(x, y, z) else I(x, y, z)
  }

  /** b + ((a + f + X[k] + T[i]) <<< s), where f mixes b, c and d. */
  function Operation(a: Word, f: Word, xk: Word, ti: Word, s: Word, b: Word): Word
    requires s <= 32
  {
    CyclicLeftRotate(a + (f + xk + ti), s) + b
  }

  /** a := Operation(a, b, c, d), and the registers move on by one. */
  function RfcStep(r: Regs, x: seq<Word>, i: nat): Regs
    requires |x| == 16 && i < 64
  {
    Regs(r.d, Operation(r.a, Mix(i, r.b, r.c, r.d), x[WordIndex(i)], T(i), Shift(i), r.b), r.b, r.c)
  }

  function CyclicLeftRotate(data: Word, shiftBits: Word): Word
    requires shiftBits <= 32
  {
    (data << shiftBits) | (data >> (32 - shiftBits))
  }

  function RfcSteps(r: Regs, x: seq<Word>, i: nat, n: nat): Regs
    requires |x| == 16 && i <= n <= 64
    decreases n - i
  {
    if i == n then r else RfcSteps(RfcStep(r, x, i), x, i + 1, n)
  }

  /** Addition modulo 2^32. */
  function Plus(x: Word, y: Word): Word { x + y }

  function RfcBlock(r: Regs, x: seq<Word>): Regs
    requires |x| == 16
  {
    var q := RfcSteps(r, x, 0, 64);
    Regs(Plus(q.a, r.a), Plus(q.b, r.b), Plus(q.c, r.c), Plus(q.d, r.d))
  }
}
