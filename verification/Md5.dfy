/** The message side of RFC 1321: padding (sections 3.1 and 3.2), the split of a
    message into blocks, and the digest of a whole message. */
module Md5Message {
  import opened Common
  import opened Md5Rfc

  type Byte = x: int | 0 <= x < 256

  const BLOCK_SIZE: nat := 64
  const TWO_64: nat := TWO_32 * TWO_32

  const START := Regs(0x67452301, 0xefcdab89, 0x98badcfe, 0x10325476)

  function WordOf(b0: Byte, b1: Byte, b2: Byte, b3: Byte): Word {
    (b0 + 0x100 * b1 + 0x1_0000 * b2 + 0x100_0000 * b3) as Word
  }

  function Words(block: seq<Byte>): (x: seq<Word>)
    requires |block| == BLOCK_SIZE
    ensures |x| == 16
  {
    seq(16, i requires 0 <= i < 16 => WordOf(block[4 * i], block[4 * i + 1], block[4 * i + 2], block[4 * i + 3]))
  }

  function Block(h: Regs, block: seq<Byte>): Regs
    requires |block| == BLOCK_SIZE
  {
    RfcBlock(h, Words(block))
  }

  /** The registers after all complete blocks of data. */
  function Absorb(h: Regs, data: seq<Byte>): Regs
    decreases |data|
  {
    if |data| < BLOCK_SIZE then h else Absorb(Block(h, data[..BLOCK_SIZE]), data[BLOCK_SIZE..])
  }

  function Zeros(n: nat): (z: seq<Byte>)
    ensures |z| == n
  {
    seq(n, _ => 0)
  }

  /** A 32-bit number as four bytes, low byte first. */
  function Bytes4(n: nat): (s: seq<Byte>)
    requires n < TWO_32
    ensures |s| == 4
  {
    [n % 0x100, n / 0x100 % 0x100, n / 0x1_0000 % 0x100, n / 0x100_0000 % 0x100]
  }

  /** The message, a one bit, zeros up to 56 modulo 64 bytes, and the length in bits
      modulo 2^64, low word first. */
  function Pad(m: seq<Byte>): seq<Byte> {
    var bits := (8 * |m|) % TWO_64;
    m + [0x80] + Zeros((55 - |m|) % BLOCK_SIZE) + Bytes4(bits % TWO_32) + Bytes4(bits / TWO_32)
  }

  function WordBytes(w: Word): seq<Byte> { Bytes4(w as int) }

  function RegisterBytes(r: Regs): seq<Byte> {
    WordBytes(r.a) + WordBytes(r.b) + WordBytes(r.c) + WordBytes(r.d)
  }

  function Digest(m: seq<Byte>): (d: seq<Byte>)
    ensures |d| == 16
  {
    RegisterBytes(Absorb(START, Pad(m)))
  }

  /** The bytes that complete no block. */
  function Tail(m: seq<Byte>): (t: seq<Byte>)
    ensures |t| == |m| % BLOCK_SIZE
  {
    m[|m| - |m| % BLOCK_SIZE..]
  }

  lemma {:induction false} AbsorbAppend(h: Regs, xs: seq<Byte>, ys: seq<Byte>)
    requires |xs| % BLOCK_SIZE == 0
    ensures Absorb(h, xs + ys) == Absorb(Absorb(h, xs), ys)
    decreases |xs|
  {
    hide Block;
    if |xs| == 0 {
      assert xs + ys == ys;
    } else {
      assert (xs + ys)[..BLOCK_SIZE] == xs[..BLOCK_SIZE];
      assert (xs + ys)[BLOCK_SIZE..] == xs[BLOCK_SIZE..] + ys;
      AbsorbAppend(Block(h, xs[..BLOCK_SIZE]), xs[BLOCK_SIZE..], ys);
    }
  }

  lemma AbsorbBlock(h: Regs, xs: seq<Byte>, block: seq<Byte>)
    requires |xs| % BLOCK_SIZE == 0 && |block| == BLOCK_SIZE
    ensures Absorb(h, xs + block) == Block(Absorb(h, xs), block)
  {
    hide Block;
    AbsorbAppend(h, xs, block);
    assert block[..BLOCK_SIZE] == block;
  }

  lemma AbsorbTail(h: Regs, xs: seq<Byte>, tail: seq<Byte>)
    requires |xs| % BLOCK_SIZE == 0 && |tail| < BLOCK_SIZE
    ensures Absorb(h, xs + tail) == Absorb(h, xs)
    ensures Tail(xs + tail) == tail
  {
    hide Block;
    AbsorbAppend(h, xs, tail);
  }
}

/** The streaming digest object md5_t of md5.cpp. */
module Md5 {
  import opened Common
  import opened Md5Rfc
  import opened Md5Message

  const S1: seq<Word> := [7, 12, 17, 22]
  const S2: seq<Word> := [5, 9, 14, 20]
  const S3: seq<Word> := [4, 11, 16, 23]
  const S4: seq<Word> := [6, 10, 15, 21]

  // The new value of the first register; a += f + Xk + T(i), rotate, a += b.

  function FF(a: Word, b: Word, c: Word, d: Word, xk: Word, s: nat, i: nat): Word
    requires s < 4 && i < 64
  {
    Operation(a, F(b, c, d), xk, T(i), S1[s], b)
  }

  function GG(a: Word, b: Word, c: Word, d: Word, xk: Word, s: nat, i: nat): Word
    requires s < 4 && i < 64
  {
    Operation(a, G(b, c, d), xk, T(i), S2[s], b)
  }

  function HH(a: Word, b: Word, c: Word, d: Word, xk: Word, s: nat, i: nat): Word
    requires s < 4 && i < 64
  {
    Operation(a, H(b, c, d), xk, T(i), S3[s], b)
  }

  function II(a: Word, b: Word, c: Word, d: Word, xk: Word, s: nat, i: nat): Word
    requires s < 4 && i < 64
  {
    Operation(a, I(b, c, d), xk, T(i), S4[s], b)
  }

  lemma {:induction false} StepsSplit(r: Regs, x: seq<Word>, i: nat, m: nat, n: nat)
    requires |x| == 16 && i <= m <= n <= 64
    ensures RfcSteps(r, x, i, n) == RfcSteps(RfcSteps(r, x, i, m), x, m, n)
    decreases m - i
  {
    if i < m { StepsSplit(RfcStep(r, x, i), x, i + 1, m, n); }
  }

  lemma NoSteps(r: Regs, x: seq<Word>)
    requires |x| == 16
    ensures RfcSteps(r, x, 0, 0) == r
  {
  }

  lemma FourSteps(r: Regs, x: seq<Word>, i: nat)
    requires |x| == 16 && i + 4 <= 64
    ensures var q := RfcSteps(r, x, 0, i);
            RfcSteps(r, x, 0, i + 4)
            == RfcStep(RfcStep(RfcStep(RfcStep(q, x, i), x, i + 1), x, i + 2), x, i + 3)
  {
    StepsSplit(r, x, 0, i, i + 1);
    StepsSplit(r, x, 0, i + 1, i + 2);
    StepsSplit(r, x, 0, i + 2, i + 3);
    StepsSplit(r, x, 0, i + 3, i + 4);
  }

  lemma Words1()
    ensures WordIndex(0) == 0 && WordIndex(1) == 1 && WordIndex(2) == 2 && WordIndex(3) == 3
    ensures WordIndex(4) == 4 && WordIndex(5) == 5 && WordIndex(6) == 6 && WordIndex(7) == 7
    ensures WordIndex(8) == 8 && WordIndex(9) == 9 && WordIndex(10) == 10 && WordIndex(11) == 11
    ensures WordIndex(12) == 12 && WordIndex(13) == 13 && WordIndex(14) == 14 && WordIndex(15) == 15
  {
  }

  lemma StepFF(r: Regs, x: seq<Word>, i: nat)
    requires |x| == 16 && 0 <= i < 16
    ensures RfcStep(r, x, i) == Regs(r.d, FF(r.a, r.b, r.c, r.d, x[WordIndex(i)], i % 4, i), r.b, r.c)
  {
    hide F, Operation, T;
    assert Shift(i) == S1[i % 4];
  }

  /** Four in-place operations bring the registers to the same places as four rotating steps. */
  lemma QuadFF(start: Regs, x: seq<Word>, i: nat, q: Regs, k0: nat, k1: nat, k2: nat, k3: nat)
    requires |x| == 16 && i % 4 == 0 && 0 <= i < 16 && q == RfcSteps(start, x, 0, i)
    requires k0 == WordIndex(i) && k1 == WordIndex(i + 1) && k2 == WordIndex(i + 2) && k3 == WordIndex(i + 3)
    ensures var a := FF(q.a, q.b, q.c, q.d, x[k0], 0, i);
            var d := FF(q.d, a, q.b, q.c, x[k1], 1, i + 1);
            var c := FF(q.c, d, a, q.b, x[k2], 2, i + 2);
            var b := FF(q.b, c, d, a, x[k3], 3, i + 3);
            RfcSteps(start, x, 0, i + 4) == Regs(a, b, c, d)
  {
    hide FF, RfcStep, RfcSteps, WordIndex;
    FourSteps(start, x, i);
    StepFF(q, x, i);
    var q1 := RfcStep(q, x, i);
    StepFF(q1, x, i + 1);
    var q2 := RfcStep(q1, x, i + 1);
    StepFF(q2, x, i + 2);
    StepFF(RfcStep(q2, x, i + 2), x, i + 3);
  }

  lemma Words2()
    ensures WordIndex(16) == 1 && WordIndex(17) == 6 && WordIndex(18) == 11 && WordIndex(19) == 0
    ensures WordIndex(20) == 5 && WordIndex(21) == 10 && WordIndex(22) == 15 && WordIndex(23) == 4
    ensures WordIndex(24) == 9 && WordIndex(25) == 14 && WordIndex(26) == 3 && WordIndex(27) == 8
    ensures WordIndex(28) == 13 && WordIndex(29) == 2 && WordIndex(30) == 7 && WordIndex(31) == 12
  {
  }

  lemma StepGG(r: Regs, x: seq<Word>, i: nat)
    requires |x| == 16 && 16 <= i < 32
    ensures RfcStep(r, x, i) == Regs(r.d, GG(r.a, r.b, r.c, r.d, x[WordIndex(i)], i % 4, i), r.b, r.c)
  {
    hide G, Operation, T;
    assert Shift(i) == S2[i % 4];
  }

  /** Four in-place operations bring the registers to the same places as four rotating steps. */
  lemma QuadGG(start: Regs, x: seq<Word>, i: nat, q: Regs, k0: nat, k1: nat, k2: nat, k3: nat)
    requires |x| == 16 && i % 4 == 0 && 16 <= i < 32 && q == RfcSteps(start, x, 0, i)
    requires k0 == WordIndex(i) && k1 == WordIndex(i + 1) && k2 == WordIndex(i + 2) && k3 == WordIndex(i + 3)
    ensures var a := GG(q.a, q.b, q.c, q.d, x[k0], 0, i);
            var d := GG(q.d, a, q.b, q.c, x[k1], 1, i + 1);
            var c := GG(q.c, d, a, q.b, x[k2], 2, i + 2);
            var b := GG(q.b, c, d, a, x[k3], 3, i + 3);
            RfcSteps(start, x, 0, i + 4) == Regs(a, b, c, d)
  {
    hide GG, RfcStep, RfcSteps, WordIndex;
    FourSteps(start, x, i);
    StepGG(q, x, i);
    var q1 := RfcStep(q, x, i);
    StepGG(q1, x, i + 1);
    var q2 := RfcStep(q1, x, i + 1);
    StepGG(q2, x, i + 2);
    StepGG(RfcStep(q2, x, i + 2), x, i + 3);
  }

  lemma Words3()
    ensures WordIndex(32) == 5 && WordIndex(33) == 8 && WordIndex(34) == 11 && WordIndex(35) == 14
    ensures WordIndex(36) == 1 && WordIndex(37) == 4 && WordIndex(38) == 7 && WordIndex(39) == 10
    ensures WordIndex(40) == 13 && WordIndex(41) == 0 && WordIndex(42) == 3 && WordIndex(43) == 6
    ensures WordIndex(44) == 9 && WordIndex(45) == 12 && WordIndex(46) == 15 && WordIndex(47) == 2
  {
  }

  lemma StepHH(r: Regs, x: seq<Word>, i: nat)
    requires |x| == 16 && 32 <= i < 48
    ensures RfcStep(r, x, i) == Regs(r.d, HH(r.a, r.b, r.c, r.d, x[WordIndex(i)], i % 4, i), r.b, r.c)
  {
    hide H, Operation, T;
    assert Shift(i) == S3[i % 4];
  }

  /** Four in-place operations bring the registers to the same places as four rotating steps. */
  lemma QuadHH(start: Regs, x: seq<Word>, i: nat, q: Regs, k0: nat, k1: nat, k2: nat, k3: nat)
    requires |x| == 16 && i % 4 == 0 && 32 <= i < 48 && q == RfcSteps(start, x, 0, i)
    requires k0 == WordIndex(i) && k1 == WordIndex(i + 1) && k2 == WordIndex(i + 2) && k3 == WordIndex(i + 3)
    ensures var a := HH(q.a, q.b, q.c, q.d, x[k0], 0, i);
            var d := HH(q.d, a, q.b, q.c, x[k1], 1, i + 1);
            var c := HH(q.c, d, a, q.b, x[k2], 2, i + 2);
            var b := HH(q.b, c, d, a, x[k3], 3, i + 3);
            RfcSteps(start, x, 0, i + 4) == Regs(a, b, c, d)
  {
    hide HH, RfcStep, RfcSteps, WordIndex;
    FourSteps(start, x, i);
    StepHH(q, x, i);
    var q1 := RfcStep(q, x, i);
    StepHH(q1, x, i + 1);
    var q2 := RfcStep(q1, x, i + 1);
    StepHH(q2, x, i + 2);
    StepHH(RfcStep(q2, x, i + 2), x, i + 3);
  }

  lemma Words4()
    ensures WordIndex(48) == 0 && WordIndex(49) == 7 && WordIndex(50) == 14 && WordIndex(51) == 5
    ensures WordIndex(52) == 12 && WordIndex(53) == 3 && WordIndex(54) == 10 && WordIndex(55) == 1
    ensures WordIndex(56) == 8 && WordIndex(57) == 15 && WordIndex(58) == 6 && WordIndex(59) == 13
    ensures WordIndex(60) == 4 && WordIndex(61) == 11 && WordIndex(62) == 2 && WordIndex(63) == 9
  {
  }

  lemma StepII(r: Regs, x: seq<Word>, i: nat)
    requires |x| == 16 && 48 <= i < 64
    ensures RfcStep(r, x, i) == Regs(r.d, II(r.a, r.b, r.c, r.d, x[WordIndex(i)], i % 4, i), r.b, r.c)
  {
    hide I, Operation, T;
    assert Shift(i) == S4[i % 4];
  }

  /** Four in-place operations bring the registers to the same places as four rotating steps. */
  lemma QuadII(start: Regs, x: seq<Word>, i: nat, q: Regs, k0: nat, k1: nat, k2: nat, k3: nat)
    requires |x| == 16 && i % 4 == 0 && 48 <= i < 64 && q == RfcSteps(start, x, 0, i)
    requires k0 == WordIndex(i) && k1 == WordIndex(i + 1) && k2 == WordIndex(i + 2) && k3 == WordIndex(i + 3)
    ensures var a := II(q.a, q.b, q.c, q.d, x[k0], 0, i);
            var d := II(q.d, a, q.b, q.c, x[k1], 1, i + 1);
            var c := II(q.c, d, a, q.b, x[k2], 2, i + 2);
            var b := II(q.b, c, d, a, x[k3], 3, i + 3);
            RfcSteps(start, x, 0, i + 4) == Regs(a, b, c, d)
  {
    hide II, RfcStep, RfcSteps, WordIndex;
    FourSteps(start, x, i);
    StepII(q, x, i);
    var q1 := RfcStep(q, x, i);
    StepII(q1, x, i + 1);
    var q2 := RfcStep(q1, x, i + 1);
    StepII(q2, x, i + 2);
    StepII(RfcStep(q2, x, i + 2), x, i + 3);
  }

  /** What process leaves of the message: an empty chunk drops the unfinished block. */
  function Fed(m: seq<Byte>, chunk: seq<Byte>): seq<Byte> {
    if chunk == [] then m[..|m| - |m| % BLOCK_SIZE] else m + chunk
  }

  lemma JoinRest(input: seq<Byte>, processed: nat, whole: seq<Byte>, rest: seq<Byte>, m: seq<Byte>)
    requires processed <= |input|
    requires rest == [] ==> whole == m + input[..processed]
    requires rest != [] ==> processed == 0 && whole + rest == m
    ensures whole + (rest + input[processed..]) == m + input
    ensures rest == [] && processed == |input| ==> whole + [] == m + input
  {
  }

  /** A sum in uint32. */
  function Sum32(x: nat, y: nat): nat { (x + y) % TWO_32 }

  /** No sum of process exceeds 32 bits on a chunk of n bytes. */
  predicate NoWrap(size: nat, n: nat) { n + (if size == 0 then BLOCK_SIZE else size) < TWO_32 }

  /** Where the loop of process stands after size buffered bytes, if n are enough for a block. */
  predicate Reached(size: nat, n: nat, processed: nat) {
    processed <= n && if n + size < BLOCK_SIZE then processed == 0 else (processed + size) % BLOCK_SIZE == 0
  }

  lemma SumsExact(size: nat, n: nat, processed: nat)
    requires size < BLOCK_SIZE && NoWrap(size, n) && Reached(size, n, processed)
    ensures Sum32(processed, BLOCK_SIZE) == processed + BLOCK_SIZE
    ensures processed + BLOCK_SIZE <= n ==> Reached(size, n, processed + BLOCK_SIZE)
  {
    assert processed + BLOCK_SIZE < TWO_32;
  }

  /** The value of processed after k rounds of the loop, in uint32. */
  function Processed(size: nat, n: nat, k: nat): nat
    requires size < BLOCK_SIZE
  {
    if k > 0 then Sum32(Processed(size, n, k - 1), BLOCK_SIZE)
    else if size != 0 && Sum32(n, size) >= BLOCK_SIZE then BLOCK_SIZE - size
    else 0
  }

  predicate LoopsOn(size: nat, n: nat, k: nat)
    requires size < BLOCK_SIZE
  {
    Sum32(Processed(size, n, k), BLOCK_SIZE) <= n
  }

  ghost predicate Ends(size: nat, n: nat)
    requires size < BLOCK_SIZE
  {
    exists k: nat :: !LoopsOn(size, n, k)
  }

  /** On a uint32 length n the loop of process ends if and only if no sum wraps. */
  lemma ProcessEnds(size: nat, n: nat)
    requires size < BLOCK_SIZE && n < TWO_32
    ensures Ends(size, n) <==> NoWrap(size, n)
  {
    if NoWrap(size, n) {
      var k := Rounds(size, n);
      assert !LoopsOn(size, n, k);
    } else {
      forall k: nat ensures LoopsOn(size, n, k) { Forever(size, n, k); }
    }
  }

  /** Once a sum wraps, processed goes round the multiples of 64 below 2^32. */
  lemma {:induction false} Forever(size: nat, n: nat, k: nat)
    requires size < BLOCK_SIZE && n < TWO_32 && !NoWrap(size, n)
    ensures Processed(size, n, k) % BLOCK_SIZE == 0 && LoopsOn(size, n, k)
  {
    if k > 0 { Forever(size, n, k - 1); }
  }

  lemma Rounds(size: nat, n: nat) returns (k: nat)
    requires size < BLOCK_SIZE && NoWrap(size, n)
    ensures !LoopsOn(size, n, k)
  {
    k := 0;
    while LoopsOn(size, n, k)
      invariant Reached(size, n, Processed(size, n, k))
      decreases n - Processed(size, n, k)
    {
      SumsExact(size, n, Processed(size, n, k));
      k := k + 1;
    }
  }

  /** With nothing buffered, 2^32 - 64 bytes are too many and one byte less is not. */
  lemma LongChunkExample()
    ensures !Ends(0, TWO_32 - BLOCK_SIZE) && Ends(0, TWO_32 - BLOCK_SIZE - 1)
  {
    ProcessEnds(0, TWO_32 - BLOCK_SIZE);
    ProcessEnds(0, TWO_32 - BLOCK_SIZE - 1);
  }

  class Digester {
    var a: Word
    var b: Word
    var c: Word
    var d: Word
    var lengthLow: nat
    var lengthHigh: nat
    var storedSize: nat
    var stored: array<Byte>
    var finished: bool
    var signature: seq<Byte>
    ghost var message: seq<Byte>

    function Registers(): Regs reads this { Regs(a, b, c, d) }

    ghost predicate Valid()
      reads this, stored
    {
      && stored.Length == 2 * BLOCK_SIZE
      && lengthLow < TWO_32 && lengthHigh < TWO_32
      && (!finished ==>
          && storedSize == |message| % BLOCK_SIZE
          && stored[..storedSize] == Tail(message)
          && Registers() == Absorb(START, message)
          && lengthHigh * TWO_32 + lengthLow == (|message| - storedSize) % TWO_64)
      && (finished ==> signature == Digest(message))
    }

    lemma BufferedSize()
      requires Valid() && !finished
      ensures storedSize == |message| % BLOCK_SIZE
    {
    }

    constructor ()
      ensures Valid() && fresh(stored) && !finished && storedSize == 0 && message == []
    {
      a, b, c, d := START.a, START.b, START.c, START.d;
      lengthLow, lengthHigh, storedSize := 0, 0, 0;
      stored := new Byte[2 * BLOCK_SIZE](_ => 0);
      finished := false;
      signature := Zeros(16);
      message := [];
    }

    /** Round 1 of process_block, in place. */
    method Round1(x: seq<Word>, ghost start: Regs)
      requires |x| == 16 && Registers() == RfcSteps(start, x, 0, 0)
      modifies this`a, this`b, this`c, this`d
      ensures Registers() == RfcSteps(start, x, 0, 16)
    {
      hide FF, RfcSteps, WordIndex;
      Words1();
      QuadFF(start, x, 0, Registers(), 0, 1, 2, 3);
      a := FF(a, b, c, d, x[0], 0, 0);
      d := FF(d, a, b, c, x[1], 1, 1);
      c := FF(c, d, a, b, x[2], 2, 2);
      b := FF(b, c, d, a, x[3], 3, 3);
      assert Registers() == RfcSteps(start, x, 0, 4);
      QuadFF(start, x, 4, Registers(), 4, 5, 6, 7);
      a := FF(a, b, c, d, x[4], 0, 4);
      d := FF(d, a, b, c, x[5], 1, 5);
      c := FF(c, d, a, b, x[6], 2, 6);
      b := FF(b, c, d, a, x[7], 3, 7);
      assert Registers() == RfcSteps(start, x, 0, 8);
      QuadFF(start, x, 8, Registers(), 8, 9, 10, 11);
      a := FF(a, b, c, d, x[8], 0, 8);
      d := FF(d, a, b, c, x[9], 1, 9);
      c := FF(c, d, a, b, x[10], 2, 10);
      b := FF(b, c, d, a, x[11], 3, 11);
      assert Registers() == RfcSteps(start, x, 0, 12);
      QuadFF(start, x, 12, Registers(), 12, 13, 14, 15);
      a := FF(a, b, c, d, x[12], 0, 12);
      d := FF(d, a, b, c, x[13], 1, 13);
      c := FF(c, d, a, b, x[14], 2, 14);
      b := FF(b, c, d, a, x[15], 3, 15);
      assert Registers() == RfcSteps(start, x, 0, 16);
    }

    /** Round 2 of process_block, in place. */
    method Round2(x: seq<Word>, ghost start: Regs)
      requires |x| == 16 && Registers() == RfcSteps(start, x, 0, 16)
      modifies this`a, this`b, this`c, this`d
      ensures Registers() == RfcSteps(start, x, 0, 32)
    {
      hide GG, RfcSteps, WordIndex;
      Words2();
      QuadGG(start, x, 16, Registers(), 1, 6, 11, 0);
      a := GG(a, b, c, d, x[1], 0, 16);
      d := GG(d, a, b, c, x[6], 1, 17);
      c := GG(c, d, a, b, x[11], 2, 18);
      b := GG(b, c, d, a, x[0], 3, 19);
      assert Registers() == RfcSteps(start, x, 0, 20);
      QuadGG(start, x, 20, Registers(), 5, 10, 15, 4);
      a := GG(a, b, c, d, x[5], 0, 20);
      d := GG(d, a, b, c, x[10], 1, 21);
      c := GG(c, d, a, b, x[15], 2, 22);
      b := GG(b, c, d, a, x[4], 3, 23);
      assert Registers() == RfcSteps(start, x, 0, 24);
      QuadGG(start, x, 24, Registers(), 9, 14, 3, 8);
      a := GG(a, b, c, d, x[9], 0, 24);
      d := GG(d, a, b, c, x[14], 1, 25);
      c := GG(c, d, a, b, x[3], 2, 26);
      b := GG(b, c, d, a, x[8], 3, 27);
      assert Registers() == RfcSteps(start, x, 0, 28);
      QuadGG(start, x, 28, Registers(), 13, 2, 7, 12);
      a := GG(a, b, c, d, x[13], 0, 28);
      d := GG(d, a, b, c, x[2], 1, 29);
      c := GG(c, d, a, b, x[7], 2, 30);
      b := GG(b, c, d, a, x[12], 3, 31);
      assert Registers() == RfcSteps(start, x, 0, 32);
    }

    /** Round 3 of process_block, in place. */
    method Round3(x: seq<Word>, ghost start: Regs)
      requires |x| == 16 && Registers() == RfcSteps(start, x, 0, 32)
      modifies this`a, this`b, this`c, this`d
      ensures Registers() == RfcSteps(start, x, 0, 48)
    {
      hide HH, RfcSteps, WordIndex;
      Words3();
      QuadHH(start, x, 32, Registers(), 5, 8, 11, 14);
      a := HH(a, b, c, d, x[5], 0, 32);
      d := HH(d, a, b, c, x[8], 1, 33);
      c := HH(c, d, a, b, x[11], 2, 34);
      b := HH(b, c, d, a, x[14], 3, 35);
      assert Registers() == RfcSteps(start, x, 0, 36);
      QuadHH(start, x, 36, Registers(), 1, 4, 7, 10);
      a := HH(a, b, c, d, x[1], 0, 36);
      d := HH(d, a, b, c, x[4], 1, 37);
      c := HH(c, d, a, b, x[7], 2, 38);
      b := HH(b, c, d, a, x[10], 3, 39);
      assert Registers() == RfcSteps(start, x, 0, 40);
      QuadHH(start, x, 40, Registers(), 13, 0, 3, 6);
      a := HH(a, b, c, d, x[13], 0, 40);
      d := HH(d, a, b, c, x[0], 1, 41);
      c := HH(c, d, a, b, x[3], 2, 42);
      b := HH(b, c, d, a, x[6], 3, 43);
      assert Registers() == RfcSteps(start, x, 0, 44);
      QuadHH(start, x, 44, Registers(), 9, 12, 15, 2);
      a := HH(a, b, c, d, x[9], 0, 44);
      d := HH(d, a, b, c, x[12], 1, 45);
      c := HH(c, d, a, b, x[15], 2, 46);
      b := HH(b, c, d, a, x[2], 3, 47);
      assert Registers() == RfcSteps(start, x, 0, 48);
    }

    /** Round 4 of process_block, in place. */
    method Round4(x: seq<Word>, ghost start: Regs)
      requires |x| == 16 && Registers() == RfcSteps(start, x, 0, 48)
      modifies this`a, this`b, this`c, this`d
      ensures Registers() == RfcSteps(start, x, 0, 64)
    {
      hide II, RfcSteps, WordIndex;
      Words4();
      QuadII(start, x, 48, Registers(), 0, 7, 14, 5);
      a := II(a, b, c, d, x[0], 0, 48);
      d := II(d, a, b, c, x[7], 1, 49);
      c := II(c, d, a, b, x[14], 2, 50);
      b := II(b, c, d, a, x[5], 3, 51);
      assert Registers() == RfcSteps(start, x, 0, 52);
      QuadII(start, x, 52, Registers(), 12, 3, 10, 1);
      a := II(a, b, c, d, x[12], 0, 52);
      d := II(d, a, b, c, x[3], 1, 53);
      c := II(c, d, a, b, x[10], 2, 54);
      b := II(b, c, d, a, x[1], 3, 55);
      assert Registers() == RfcSteps(start, x, 0, 56);
      QuadII(start, x, 56, Registers(), 8, 15, 6, 13);
      a := II(a, b, c, d, x[8], 0, 56);
      d := II(d, a, b, c, x[15], 1, 57);
      c := II(c, d, a, b, x[6], 2, 58);
      b := II(b, c, d, a, x[13], 3, 59);
      assert Registers() == RfcSteps(start, x, 0, 60);
      QuadII(start, x, 60, Registers(), 4, 11, 2, 9);
      a := II(a, b, c, d, x[4], 0, 60);
      d := II(d, a, b, c, x[11], 1, 61);
      c := II(c, d, a, b, x[2], 2, 62);
      b := II(b, c, d, a, x[9], 3, 63);
      assert Registers() == RfcSteps(start, x, 0, 64);
    }

    /** The carry between the two length words: their 64-bit value grows by n. */
    method AddLength(n: nat)
      requires n <= BLOCK_SIZE && lengthLow < TWO_32 && lengthHigh < TWO_32
      modifies this`lengthLow, this`lengthHigh
      ensures lengthLow < TWO_32 && lengthHigh < TWO_32
      ensures lengthHigh * TWO_32 + lengthLow == (old(lengthHigh * TWO_32 + lengthLow) + n) % TWO_64
    {
      Carry(lengthLow, lengthHigh, n);
      if (lengthLow + n) % TWO_32 < lengthLow {
        lengthHigh := (lengthHigh + 1) % TWO_32;
      }
      lengthLow := (lengthLow + n) % TWO_32;
    }

    /** One block: the 64-bit length in two words goes up by 64, and the unrolled rounds
        do what the register-rotating loop of RFC 1321 does. */
    method ProcessBlock(block: seq<Byte>)
      requires |block| == BLOCK_SIZE && lengthLow < TWO_32 && lengthHigh < TWO_32
      modifies this`a, this`b, this`c, this`d, this`lengthLow, this`lengthHigh
      ensures Registers() == Block(old(Registers()), block)
      ensures lengthLow < TWO_32 && lengthHigh < TWO_32
      ensures lengthHigh * TWO_32 + lengthLow == (old(lengthHigh * TWO_32 + lengthLow) + BLOCK_SIZE) % TWO_64
    {
      hide RfcBlock, Words;
      AddLength(BLOCK_SIZE);
      var x := Words(block);
      Compress(x);
    }

    method Compress(x: seq<Word>)
      requires |x| == 16
      modifies this`a, this`b, this`c, this`d
      ensures Registers() == RfcBlock(old(Registers()), x)
    {
      hide RfcSteps, RfcStep, Plus;
      var aa, bb, cc, dd := a, b, c, d;
      ghost var start := Registers();
      NoSteps(start, x);
      Round1(x, start);
      Round2(x, start);
      Round3(x, start);
      Round4(x, start);
      a := Plus(a, aa);
      b := Plus(b, bb);
      c := Plus(c, cc);
      d := Plus(d, dd);
    }

    /** The state in which the complete blocks of the message are done: whole is done,
        and the first storedSize stored bytes are what is left of it. */
    ghost predicate Between(whole: seq<Byte>, rest: seq<Byte>)
      reads this, stored
    {
      && stored.Length == 2 * BLOCK_SIZE
      && lengthLow < TWO_32 && lengthHigh < TWO_32
      && |whole| % BLOCK_SIZE == 0
      && storedSize == |rest| < BLOCK_SIZE && stored[..storedSize] == rest
      && Registers() == Absorb(START, whole)
      && lengthHigh * TWO_32 + lengthLow == |whole| % TWO_64
    }

    lemma BetweenIsValid(whole: seq<Byte>, rest: seq<Byte>)
      requires Between(whole, rest) && !finished && message == whole + rest
      ensures Valid()
    {
      AbsorbTail(START, whole, rest);
    }

    ghost method Open() returns (whole: seq<Byte>, rest: seq<Byte>)
      requires Valid() && !finished
      ensures Between(whole, rest) && |rest| == storedSize < BLOCK_SIZE
      ensures message == whole + rest && whole == message[..|message| - |message| % BLOCK_SIZE]
    {
      hide Absorb, Digest;
      whole, rest := message[..|message| - storedSize], Tail(message);
      assert message == whole + rest;
      AbsorbTail(START, whole, rest);
      assert stored[..storedSize] == rest;
    }

    method Advance(block: seq<Byte>, ghost whole: seq<Byte>)
      requires Between(whole, []) && |block| == BLOCK_SIZE
      modifies this`a, this`b, this`c, this`d, this`lengthLow, this`lengthHigh
      ensures Between(whole + block, [])
    {
      hide Block;
      ProcessBlock(block);
      AbsorbBlock(START, whole, block);
      AddMod(|whole|, BLOCK_SIZE, TWO_64);
    }

    /** The message grows by a non-empty chunk, for every chunk on which the loop ends. */
    method Process(input: seq<Byte>)
      requires Valid() && |input| < TWO_32 && (finished || NoWrap(storedSize, |input|))
      modifies this, stored
      ensures Valid() && stored == old(stored) && finished == old(finished) && signature == old(signature)
      ensures message == if finished then old(message) else Fed(old(message), input)
    {
      hide Absorb, Digest, Between, Reached;
      if finished { return; }
      ghost var m, size := message, storedSize;
      ghost var whole, rest := Open();
      var processed;
      processed, whole, rest := TopUp(input, whole, rest);
      processed, whole := ProcessBlocks(input, processed, size, whole, rest, m);
      KeepRest(input, processed, whole, rest, m);
    }

    /** The first test of process: buffered bytes and the start of the chunk make a block. */
    method TopUp(input: seq<Byte>, ghost before: seq<Byte>, ghost tail: seq<Byte>)
      returns (processed: nat, ghost whole: seq<Byte>, ghost rest: seq<Byte>)
      requires Between(before, tail) && NoWrap(storedSize, |input|)
      modifies this`a, this`b, this`c, this`d, this`lengthLow, this`lengthHigh, this`storedSize
      ensures processed <= |input| && |rest| < BLOCK_SIZE && Between(whole, rest) && Reached(|tail|, |input|, processed)
      ensures rest == [] ==> whole == before + tail + input[..processed]
      ensures rest != [] ==> processed == 0 && whole == before && rest == tail && |input| + |rest| < BLOCK_SIZE
      ensures input == [] ==> whole == before
    {
      hide Absorb;
      processed, whole, rest := 0, before, tail;
      if storedSize != 0 && Sum32(|input|, storedSize) >= BLOCK_SIZE {
        processed := BLOCK_SIZE - storedSize;
        var block := stored[..storedSize] + input[..processed];
        storedSize := 0;
        Advance(block, whole);
        assert before + block == before + tail + input[..processed];
        whole, rest := before + block, [];
      }
    }

    /** The loop of process over the complete blocks of the chunk. */
    method ProcessBlocks(input: seq<Byte>, start: nat,
                         ghost size: nat, ghost before: seq<Byte>, ghost rest: seq<Byte>, ghost m: seq<Byte>)
      returns (processed: nat, ghost whole: seq<Byte>)
      requires start <= |input| && |rest| < BLOCK_SIZE && size < BLOCK_SIZE && NoWrap(size, |input|) && Reached(size, |input|, start)
      requires Between(before, rest)
      requires rest == [] ==> before == m + input[..start]
      requires rest != [] ==> start == 0 && before + rest == m && |input| + |rest| < BLOCK_SIZE
      requires input == [] ==> before == m[..|m| - |m| % BLOCK_SIZE]
      modifies this`a, this`b, this`c, this`d, this`lengthLow, this`lengthHigh
      ensures processed <= |input| < processed + BLOCK_SIZE && Between(whole, rest)
      ensures rest == [] ==> whole == m + input[..processed]
      ensures rest != [] ==> processed == 0 && whole + rest == m
      ensures input == [] ==> whole == m[..|m| - |m| % BLOCK_SIZE]
    {
      hide Absorb, Between, Sum32, NoWrap, Reached;
      processed, whole := start, before;
      while Sum32(processed, BLOCK_SIZE) <= |input|
        invariant processed <= |input| && Reached(size, |input|, processed) && Between(whole, rest)
        invariant rest == [] ==> whole == m + input[..processed]
        invariant rest != [] ==> processed == 0 && whole + rest == m
        invariant input == [] ==> whole == m[..|m| - |m| % BLOCK_SIZE]
        decreases |input| - processed
      {
        SumsExact(size, |input|, processed);
        var block := input[processed..processed + BLOCK_SIZE];
        Advance(block, whole);
        assert (m + input[..processed]) + block == m + input[..processed + BLOCK_SIZE];
        whole := whole + block;
        processed := Sum32(processed, BLOCK_SIZE);
      }
      SumsExact(size, |input|, processed);
    }

    /** The end of process: what completes no block is stored for the next call. */
    method KeepRest(input: seq<Byte>, processed: nat, ghost whole: seq<Byte>, ghost before: seq<Byte>, ghost m: seq<Byte>)
      requires processed <= |input| < processed + BLOCK_SIZE && !finished && Between(whole, before)
      requires before == [] ==> whole == m + input[..processed]
      requires before != [] ==> processed == 0 && whole + before == m && |input| + |before| < BLOCK_SIZE
      requires input == [] ==> whole == m[..|m| - |m| % BLOCK_SIZE]
      modifies stored, this`storedSize, this`message
      ensures Valid() && message == Fed(m, input)
    {
      hide Absorb, Digest;
      ghost var rest := before;
      JoinRest(input, processed, whole, rest, m);
      if processed != |input| {
        CopyIn(input[processed..]);
        storedSize := storedSize + (|input| - processed);
        rest := rest + input[processed..];
      } else {
        storedSize := 0;
        rest := [];
      }
      message := whole + rest;
      BetweenIsValid(whole, rest);
    }

    /** memcpy to the end of the stored bytes. */
    method CopyIn(bytes: seq<Byte>)
      requires storedSize + |bytes| <= stored.Length
      modifies stored
      ensures stored[..storedSize + |bytes|] == old(stored[..storedSize]) + bytes
    {
      for i := 0 to |bytes|
        invariant stored[..storedSize + i] == old(stored[..storedSize]) + bytes[..i]
      {
        stored[storedSize + i] := bytes[i];
      }
      assert bytes[..|bytes|] == bytes;
    }

    method Append(bytes: seq<Byte>)
      requires storedSize + |bytes| <= stored.Length
      modifies stored, this`storedSize
      ensures storedSize == old(storedSize) + |bytes|
      ensures stored[..storedSize] == old(stored[..storedSize]) + bytes
    {
      CopyIn(bytes);
      storedSize := storedSize + |bytes|;
    }

    method StoreEnd(pad: nat, low: seq<Byte>, high: seq<Byte>)
      requires pad > 0 && |low| == |high| == 4 && storedSize + pad + 8 <= stored.Length
      modifies stored, this`storedSize
      ensures storedSize == old(storedSize) + pad + 8
      ensures stored[..storedSize] == old(stored[..storedSize]) + [0x80] + Zeros(pad - 1) + low + high
    {
      Append([0x80]);
      Append(Zeros(pad - 1));
      Append(low);
      Append(high);
    }

    /** The one or two blocks that padding leaves. */
    method ProcessLast(ghost whole: seq<Byte>)
      requires stored.Length == 2 * BLOCK_SIZE && lengthLow < TWO_32 && lengthHigh < TWO_32
      requires storedSize == BLOCK_SIZE || storedSize == 2 * BLOCK_SIZE
      requires |whole| % BLOCK_SIZE == 0 && Registers() == Absorb(START, whole)
      modifies this`a, this`b, this`c, this`d, this`lengthLow, this`lengthHigh
      ensures Registers() == Absorb(START, whole + stored[..storedSize])
      ensures lengthLow < TWO_32 && lengthHigh < TWO_32
    {
      hide Block, Absorb;
      var first := stored[..BLOCK_SIZE];
      ProcessBlock(first);
      AbsorbBlock(START, whole, first);
      if storedSize > BLOCK_SIZE {
        var second := stored[BLOCK_SIZE..2 * BLOCK_SIZE];
        ProcessBlock(second);
        AbsorbBlock(START, whole + first, second);
        assert whole + stored[..storedSize] == (whole + first) + second;
      }
    }

    /** The length, then the padding and the length words behind the buffered bytes. */
    method StorePadding(ghost whole: seq<Byte>, ghost tail: seq<Byte>)
      requires Between(whole, tail)
      modifies stored, this`storedSize, this`lengthLow, this`lengthHigh
      ensures storedSize == BLOCK_SIZE || storedSize == 2 * BLOCK_SIZE
      ensures whole + stored[..storedSize] == Pad(whole + tail)
      ensures lengthLow < TWO_32 && lengthHigh < TWO_32
    {
      hide Absorb, Bytes4, Pad;
      AddLength(storedSize);
      AddMod(|whole|, storedSize, TWO_64);
      assert lengthHigh * TWO_32 + lengthLow == |whole + tail| % TWO_64;
      var pad := 56 - storedSize;
      if pad <= 0 {
        pad := pad + BLOCK_SIZE;
      }
      // the masks and shifts of the original, as arithmetic
      var sizeLow := (lengthLow % 0x2000_0000) * 8;
      var sizeHigh := (lengthHigh * 8) % TWO_32 + lengthLow / 0x2000_0000;
      BitLength(|whole + tail|, lengthLow, lengthHigh);
      StoreEnd(pad, Bytes4(sizeLow), Bytes4(sizeHigh));
      PadWith(whole, tail, pad, sizeLow, sizeHigh);
    }

    /** Padding and the last one or two blocks; the signature is the RFC 1321 digest. */
    method Finish()
      requires Valid()
      modifies this, stored
      ensures Valid() && finished && message == old(message) && signature == Digest(message)
    {
      hide Absorb, RegisterBytes, Pad;
      if finished { return; }
      ghost var whole, tail := Open();
      StorePadding(whole, tail);
      ProcessLast(whole);
      signature := RegisterBytes(Registers());
      finished := true;
    }
  }

  /** The two words that finish appends are 8 times the length modulo 2^64. */
  lemma BitLength(n: nat, low: nat, high: nat)
    requires low < TWO_32 && high < TWO_32 && high * TWO_32 + low == n % TWO_64
    ensures var bits := (8 * n) % TWO_64;
            && bits % TWO_32 == (low % 0x2000_0000) * 8
            && bits / TWO_32 == (high * 8) % TWO_32 + low / 0x2000_0000
  {
    var q, h, carry := n / TWO_64, high / 0x2000_0000, low / 0x2000_0000;
    var top, bottom := high * 8 - h * TWO_32 + carry, low * 8 - carry * TWO_32;
    assert n == q * TWO_64 + high * TWO_32 + low;
    assert 0 <= bottom < TWO_32 && 0 <= top < TWO_32;
    assert 8 * n == (8 * q + h) * TWO_64 + (top * TWO_32 + bottom);
    Remainder(8 * n, TWO_64, 8 * q + h, top * TWO_32 + bottom);
    Remainder(top * TWO_32 + bottom, TWO_32, top, bottom);
    Remainder(high * 8, TWO_32, h, top - carry);
  }

  /** What finish stores after the complete blocks is exactly the padding of RFC 1321. */
  lemma PadWith(whole: seq<Byte>, tail: seq<Byte>, pad: int, low: nat, high: nat)
    requires |whole| % BLOCK_SIZE == 0 && |tail| < BLOCK_SIZE
    requires pad == (if |tail| < 56 then 56 - |tail| else 56 - |tail| + BLOCK_SIZE)
    requires var bits := (8 * |whole + tail|) % TWO_64; low == bits % TWO_32 && high == bits / TWO_32
    ensures whole + (tail + [0x80] + Zeros(pad - 1) + Bytes4(low) + Bytes4(high)) == Pad(whole + tail)
  {
    hide Bytes4;
    var n := |whole + tail|;
    assert (55 - n) % BLOCK_SIZE == pad - 1;
  }

  /** A sum smaller than its first summand has carried. */
  lemma Carry(low: nat, high: nat, n: nat)
    requires low < TWO_32 && high < TWO_32 && n <= BLOCK_SIZE
    ensures var up := if (low + n) % TWO_32 < low then (high + 1) % TWO_32 else high;
            up * TWO_32 + (low + n) % TWO_32 == (high * TWO_32 + low + n) % TWO_64
  {
  }

  lemma AddMod(x: nat, y: nat, m: nat)
    requires m > 0
    ensures (x % m + y) % m == (x + y) % m
  {
    var q, r := x / m, (x % m + y) / m;
    assert x + y == (q + r) * m + (x % m + y) % m by {
      assert x == q * m + x % m;
      assert x % m + y == r * m + (x % m + y) % m;
    }
    Remainder(x + y, m, q + r, (x % m + y) % m);
  }

  lemma Remainder(n: nat, m: nat, q: nat, r: nat)
    requires m > 0 && r < m && n == q * m + r
    ensures n / m == q && n % m == r
  {
    var q' := n / m;
    if q' < q { Multiply(q - q', m); }
    if q < q' { Multiply(q' - q, m); }
  }

  lemma Multiply(d: nat, m: nat)
    requires d > 0
    ensures d * m >= m
  {
  }
}

/** Uses of the digest object, and the hexadecimal form of a signature. */
module Md5Text {
  import opened Common
  import opened Md5Message
  import opened Md5

  function Concat(chunks: seq<seq<Byte>>): seq<Byte> {
    if chunks == [] then [] else Concat(chunks[..|chunks| - 1]) + chunks[|chunks| - 1]
  }

  /** Streaming equals one shot: however a message is cut into non-empty chunks, the
      signature is the digest of the whole message. */
  method DigestChunks(chunks: seq<seq<Byte>>) returns (signature: seq<Byte>)
    requires forall k | 0 <= k < |chunks| :: chunks[k] != []
    requires forall k | 0 <= k < |chunks| :: NoWrap(|Concat(chunks[..k])| % BLOCK_SIZE, |chunks[k]|)
    ensures signature == Digest(Concat(chunks))
  {
    hide Digest, Absorb, Digester.Registers, Digester.Valid;
    var md5 := new Digester();
    for k := 0 to |chunks|
      invariant fresh(md5) && fresh(md5.stored) && md5.Valid() && !md5.finished
      invariant md5.message == Concat(chunks[..k])
    {
      md5.BufferedSize();
      md5.Process(chunks[k]);
      assert chunks[..k + 1][..k] == chunks[..k];
    }
    assert chunks[..|chunks|] == chunks;
    md5.Finish();
    signature := md5.signature;
  }

  /** A chunk is appended exactly when it is non-empty or no bytes are buffered. */
  lemma EmptyChunkDropsTail(m: seq<Byte>, chunk: seq<Byte>)
    ensures Fed(m, chunk) == m + chunk <==> chunk != [] || |m| % BLOCK_SIZE == 0
  {
  }

  /** One byte and then nothing: the byte is forgotten. */
  lemma EmptyChunkExample()
    ensures Fed(Fed([], [0x61]), []) == [] != [0x61]
  {
    assert Fed([], [0x61]) == [0x61];
  }

  /** HEX_STRING[d], the string being "0123456789abcdef". */
  function HexChar(d: nat): char
    requires d < 16
  {
    if d < 10 then (48 + d) as char else (87 + d) as char
  }

  predicate IsHexChar(c: char) { '0' <= c <= '9' || 'a' <= c <= 'f' }

  /** The offset at which strchr finds c in HEX_STRING. */
  function HexDigit(c: char): (d: nat)
    requires IsHexChar(c)
    ensures d < 16 && HexChar(d) == c
  {
    if c <= '9' then c as int - 48 else c as int - 87
  }

  function HexOf(bytes: seq<Byte>): (text: string)
    ensures |text| == 2 * |bytes|
  {
    if bytes == [] then "" else
    var last := bytes[|bytes| - 1];
    HexOf(bytes[..|bytes| - 1]) + [HexChar(last / 16), HexChar(last % 16)]
  }

  lemma HexOfNext(bytes: seq<Byte>, last: Byte)
    ensures HexOf(bytes + [last]) == HexOf(bytes) + [HexChar(last / 16), HexChar(last % 16)]
  {
    assert (bytes + [last])[..|bytes|] == bytes;
  }

  method SigToString(signature: seq<Byte>, length: nat) returns (text: string)
    ensures var n := if 2 * |signature| <= length then |signature| else length / 2;
            text == HexOf(signature[..n])
  {
    assert HexOf([]) == "";
    hide HexOf, HexChar;
    text := "";
    var k := 0;
    while k < |signature| && 2 * k + 1 < length
      invariant k <= |signature| && 2 * k <= length
      invariant text == HexOf(signature[..k])
    {
      HexOfNext(signature[..k], signature[k]);
      assert signature[..k] + [signature[k]] == signature[..k + 1];
      text := text + [HexChar(signature[k] / 16), HexChar(signature[k] % 16)];
      k := k + 1;
    }
  }

  lemma HexCharInjective(d: nat, e: nat)
    requires d < 16 && e < 16 && HexChar(d) == HexChar(e)
    ensures d == e
  {
  }

  lemma {:induction false} HexInjective(xs: seq<Byte>, ys: seq<Byte>)
    requires HexOf(xs) == HexOf(ys)
    ensures xs == ys
  {
    if xs != [] {
      hide HexChar;
      var n := |xs| - 1;
      assert |ys| == |xs|;
      assert HexOf(xs)[..2 * n] == HexOf(xs[..n]) && HexOf(ys)[..2 * n] == HexOf(ys[..n]);
      HexInjective(xs[..n], ys[..n]);
      assert HexOf(xs)[2 * n] == HexOf(ys)[2 * n] && HexOf(xs)[2 * n + 1] == HexOf(ys)[2 * n + 1];
      HexCharInjective(xs[n] / 16, ys[n] / 16);
      HexCharInjective(xs[n] % 16, ys[n] % 16);
      assert xs == xs[..n] + [xs[n]] && ys == ys[..n] + [ys[n]];
    }
  }

  const MD5_STRING_SIZE := 33

  /** getMD5: the length is cut to uint32 on the way into process. */
  method GetMd5(data: seq<Byte>) returns (text: string)
    requires NoWrap(0, |data| % TWO_32)
    ensures text == HexOf(Digest(data[..|data| % TWO_32])) && |text| == 32
  {
    hide Digest, HexOf, Digester.Valid;
    var md5 := new Digester();
    var input := data[..|data| % TWO_32];
    md5.Process(input);
    assert [] + input == input;
    md5.Finish();
    assert md5.signature[..16] == md5.signature;
    text := SigToString(md5.signature, MD5_STRING_SIZE);
  }

  /** Inverts SigToString: the result is the only signature with this text. */
  method SigFromString(text: string) returns (signature: seq<Byte>)
    requires |text| >= 32 && forall k | 0 <= k < 32 :: IsHexChar(text[k])
    ensures |signature| == 16 && HexOf(signature) == text[..32]
    ensures forall other: seq<Byte> :: HexOf(other) == text[..32] ==> other == signature
  {
    assert HexOf([]) == "";
    hide HexChar, HexOf;
    signature := [];
    var k := 0;
    while k < 32
      invariant k <= 32 && k == 2 * |signature|
      invariant HexOf(signature) == text[..k]
    {
      var high, low := HexDigit(text[k]), HexDigit(text[k + 1]);
      var val := high * 16 + low;
      HexOfNext(signature, val);
      assert val / 16 == high && val % 16 == low;
      signature := signature + [val];
      assert text[..k] + [text[k], text[k + 1]] == text[..k + 2];
      k := k + 2;
    }
    forall other: seq<Byte> | HexOf(other) == text[..32] ensures other == signature {
      HexInjective(other, signature);
    }
  }
}
