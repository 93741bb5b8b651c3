/** What the rounds of the ChaCha block function compute. */
module ChaChaRounds {
  import opened Primitives
  import opened Words
  import opened ChaChaSpec
  import opened ChaChaWords

  // ----- rounds on machine words -----

  datatype Line = Line(a: bv32, b: bv32, c: bv32, d: bv32)

  /** Four rows of four words. */
  datatype Square = Square(r0: Line, r1: Line, r2: Line, r3: Line)

  function WordQuarter(a: bv32, b: bv32, c: bv32, d: bv32): Line {
    var a1 := Sum(a, b);
    var d1 := Turn16(Both(d, a1));
    var c1 := Sum(c, d1);
    var b1 := Turn12(Both(b, c1));
    var a2 := Sum(a1, b1);
    var d2 := Turn8(Both(d1, a2));
    var c2 := Sum(c1, d2);
    Line(a2, Turn7(Both(b1, c2)), c2, d2)
  }

  /** A quarter round on each of the four columns. */
  function Columns(m: Square): Square {
    var p := WordQuarter(m.r0.a, m.r1.a, m.r2.a, m.r3.a);
    var q := WordQuarter(m.r0.b, m.r1.b, m.r2.b, m.r3.b);
    var r := WordQuarter(m.r0.c, m.r1.c, m.r2.c, m.r3.c);
    var s := WordQuarter(m.r0.d, m.r1.d, m.r2.d, m.r3.d);
    Square(Line(p.a, q.a, r.a, s.a), Line(p.b, q.b, r.b, s.b), Line(p.c, q.c, r.c, s.c), Line(p.d, q.d, r.d, s.d))
  }

  function Left(q: Line): Line {
    Line(q.b, q.c, q.d, q.a)
  }

  function Right(q: Line): Line {
    Line(q.d, q.a, q.b, q.c)
  }

  /** Row `r` moves `r` places to the left, which makes columns of the diagonals. */
  function Shift(m: Square): Square {
    Square(m.r0, Left(m.r1), Left(Left(m.r2)), Right(m.r3))
  }

  function Unshift(m: Square): Square {
    Square(m.r0, Right(m.r1), Right(Right(m.r2)), Left(m.r3))
  }

  lemma ShiftBack(m: Square)
    ensures Unshift(Shift(m)) == m && Shift(Unshift(m)) == m
  {
  }

  function Double(m: Square): Square {
    Unshift(Columns(Shift(Columns(m))))
  }

  // ----- a quarter round on numbers is one on words -----

  lemma MixUp(a: u32, b: u32, d: u32, a1: u32, x: u32)
    requires a1 == Add32(a, b) && x == Xor32(d, a1)
    ensures Word(a1) == Sum(Word(a), Word(b)) && Word(x) == Both(Word(d), Word(a1))
  {
    AddWord(a, b);
    XorWord(d, a1);
  }

  lemma Mix16(a: u32, b: u32, d: u32, a1: u32, d1: u32)
    requires a1 == Add32(a, b) && d1 == Rotl(Xor32(d, a1), 16)
    ensures Word(a1) == Sum(Word(a), Word(b)) && Word(d1) == Turn16(Both(Word(d), Word(a1)))
  {
    MixUp(a, b, d, a1, Xor32(d, a1));
    Word16(Xor32(d, a1));
  }

  lemma Mix12(a: u32, b: u32, d: u32, a1: u32, d1: u32)
    requires a1 == Add32(a, b) && d1 == Rotl(Xor32(d, a1), 12)
    ensures Word(a1) == Sum(Word(a), Word(b)) && Word(d1) == Turn12(Both(Word(d), Word(a1)))
  {
    MixUp(a, b, d, a1, Xor32(d, a1));
    Word12(Xor32(d, a1));
  }

  lemma Mix8(a: u32, b: u32, d: u32, a1: u32, d1: u32)
    requires a1 == Add32(a, b) && d1 == Rotl(Xor32(d, a1), 8)
    ensures Word(a1) == Sum(Word(a), Word(b)) && Word(d1) == Turn8(Both(Word(d), Word(a1)))
  {
    MixUp(a, b, d, a1, Xor32(d, a1));
    Word8(Xor32(d, a1));
  }

  lemma Mix7(a: u32, b: u32, d: u32, a1: u32, d1: u32)
    requires a1 == Add32(a, b) && d1 == Rotl(Xor32(d, a1), 7)
    ensures Word(a1) == Sum(Word(a), Word(b)) && Word(d1) == Turn7(Both(Word(d), Word(a1)))
  {
    MixUp(a, b, d, a1, Xor32(d, a1));
    Word7(Xor32(d, a1));
  }

  /** One line of the quarter round, as `w` reads numbers. */
  predicate Step(w: nat -> bv32, a: u32, b: u32, d: u32, a1: u32, d1: u32, turn: bv32 -> bv32) {
    w(a1) == Sum(w(a), w(b)) && w(d1) == turn(Both(w(d), w(a1)))
  }

  lemma Steps(a: u32, b: u32, c: u32, d: u32)
    returns (a1: u32, b1: u32, c1: u32, d1: u32, a2: u32, b2: u32, c2: u32, d2: u32)
    ensures Quarter(a, b, c, d) == Quad(a2, b2, c2, d2)
    ensures Step(Word, a, b, d, a1, d1, Turn16) && Step(Word, c, d1, b, c1, b1, Turn12)
    ensures Step(Word, a1, b1, d1, a2, d2, Turn8) && Step(Word, c1, d2, b1, c2, b2, Turn7)
  {
    a1 := Add32(a, b);
    d1 := Rotl(Xor32(d, a1), 16);
    c1 := Add32(c, d1);
    b1 := Rotl(Xor32(b, c1), 12);
    a2 := Add32(a1, b1);
    d2 := Rotl(Xor32(d1, a2), 8);
    c2 := Add32(c1, d2);
    b2 := Rotl(Xor32(b1, c2), 7);
    Mix16(a, b, d, a1, d1);
    Mix12(c, d1, b, c1, b1);
    Mix8(a1, b1, d1, a2, d2);
    Mix7(c1, d2, b1, c2, b2);
  }

  function LineOf(w: nat -> bv32, q: Quad): Line {
    Line(w(q.a), w(q.b), w(q.c), w(q.d))
  }

  lemma Assemble(w: nat -> bv32, a: u32, b: u32, c: u32, d: u32,
                 a1: u32, b1: u32, c1: u32, d1: u32, a2: u32, b2: u32, c2: u32, d2: u32)
    requires Step(w, a, b, d, a1, d1, Turn16) && Step(w, c, d1, b, c1, b1, Turn12)
    requires Step(w, a1, b1, d1, a2, d2, Turn8) && Step(w, c1, d2, b1, c2, b2, Turn7)
    ensures LineOf(w, Quad(a2, b2, c2, d2)) == WordQuarter(w(a), w(b), w(c), w(d))
  {
  }

  /** A quarter round on numbers is the quarter round on their words. */
  lemma QuarterWord(a: u32, b: u32, c: u32, d: u32)
    ensures LineOf(Word, Quarter(a, b, c, d)) == WordQuarter(Word(a), Word(b), Word(c), Word(d))
  {
    var a1, b1, c1, d1, a2, b2, c2, d2 := Steps(a, b, c, d);
    Assemble(Word, a, b, c, d, a1, b1, c1, d1, a2, b2, c2, d2);
  }

  // ----- the rounds of a whole state -----

  ghost predicate Reads(w: nat -> bv32) {
    forall a: u32, b: u32, c: u32, d: u32 {:trigger Quarter(a, b, c, d)} ::
      LineOf(w, Quarter(a, b, c, d)) == WordQuarter(w(a), w(b), w(c), w(d))
  }

  function SquareOf(w: nat -> bv32, x: State): Square {
    Square(Line(w(x[0]), w(x[1]), w(x[2]), w(x[3])), Line(w(x[4]), w(x[5]), w(x[6]), w(x[7])),
           Line(w(x[8]), w(x[9]), w(x[10]), w(x[11])), Line(w(x[12]), w(x[13]), w(x[14]), w(x[15])))
  }

  function ColumnRounds(x: State): State {
    QuarterRound(QuarterRound(QuarterRound(QuarterRound(x, 0, 4, 8, 12), 1, 5, 9, 13), 2, 6, 10, 14), 3, 7, 11, 15)
  }

  function DiagonalRounds(x: State): State {
    QuarterRound(QuarterRound(QuarterRound(QuarterRound(x, 0, 5, 10, 15), 1, 6, 11, 12), 2, 7, 8, 13), 3, 4, 9, 14)
  }

  lemma PutColumns(x: State, p: Quad, q: Quad, r: Quad, s: Quad)
    ensures Put(Put(Put(Put(x, 0, 4, 8, 12, p), 1, 5, 9, 13, q), 2, 6, 10, 14, r), 3, 7, 11, 15, s)
            == [p.a, q.a, r.a, s.a, p.b, q.b, r.b, s.b, p.c, q.c, r.c, s.c, p.d, q.d, r.d, s.d]
  {
  }

  lemma PutDiagonals(x: State, p: Quad, q: Quad, r: Quad, s: Quad)
    ensures Put(Put(Put(Put(x, 0, 5, 10, 15, p), 1, 6, 11, 12, q), 2, 7, 8, 13, r), 3, 4, 9, 14, s)
            == [p.a, q.a, r.a, s.a, s.b, p.b, q.b, r.b, r.c, s.c, p.c, q.c, q.d, r.d, s.d, p.d]
  {
  }

  lemma PutOnce(x: State, a: nat, b: nat, c: nat, d: nat, q: Quad)
    requires a < 16 && b < 16 && c < 16 && d < 16
    ensures forall i :: 0 <= i < 16 && i != a && i != b && i != c && i != d ==> Put(x, a, b, c, d, q)[i] == x[i]
  {
  }

  lemma ColumnsAre(x: State) returns (p: Quad, q: Quad, r: Quad, s: Quad)
    ensures p == Quarter(x[0], x[4], x[8], x[12]) && q == Quarter(x[1], x[5], x[9], x[13])
    ensures r == Quarter(x[2], x[6], x[10], x[14]) && s == Quarter(x[3], x[7], x[11], x[15])
    ensures ColumnRounds(x) == [p.a, q.a, r.a, s.a, p.b, q.b, r.b, s.b, p.c, q.c, r.c, s.c, p.d, q.d, r.d, s.d]
  {
    p, q := Quarter(x[0], x[4], x[8], x[12]), Quarter(x[1], x[5], x[9], x[13]);
    r, s := Quarter(x[2], x[6], x[10], x[14]), Quarter(x[3], x[7], x[11], x[15]);
    PutOnce(x, 0, 4, 8, 12, p);
    var x1 := Put(x, 0, 4, 8, 12, p);
    PutOnce(x1, 1, 5, 9, 13, q);
    var x2 := Put(x1, 1, 5, 9, 13, q);
    PutOnce(x2, 2, 6, 10, 14, r);
    PutColumns(x, p, q, r, s);
  }

  lemma WordReads()
    ensures Reads(Word)
  {
    forall a: u32, b: u32, c: u32, d: u32 {:trigger Quarter(a, b, c, d)}
      ensures LineOf(Word, Quarter(a, b, c, d)) == WordQuarter(Word(a), Word(b), Word(c), Word(d))
    {
      QuarterWord(a, b, c, d);
    }
  }


  lemma DiagonalsAre(x: State) returns (p: Quad, q: Quad, r: Quad, s: Quad)
    ensures p == Quarter(x[0], x[5], x[10], x[15]) && q == Quarter(x[1], x[6], x[11], x[12])
    ensures r == Quarter(x[2], x[7], x[8], x[13]) && s == Quarter(x[3], x[4], x[9], x[14])
    ensures DiagonalRounds(x) == [p.a, q.a, r.a, s.a, s.b, p.b, q.b, r.b, r.c, s.c, p.c, q.c, q.d, r.d, s.d, p.d]
  {
    p, q := Quarter(x[0], x[5], x[10], x[15]), Quarter(x[1], x[6], x[11], x[12]);
    r, s := Quarter(x[2], x[7], x[8], x[13]), Quarter(x[3], x[4], x[9], x[14]);
    PutOnce(x, 0, 5, 10, 15, p);
    var x1 := Put(x, 0, 5, 10, 15, p);
    PutOnce(x1, 1, 6, 11, 12, q);
    var x2 := Put(x1, 1, 6, 11, 12, q);
    PutOnce(x2, 2, 7, 8, 13, r);
    PutDiagonals(x, p, q, r, s);
  }

  lemma LineReads(w: nat -> bv32, a: u32, b: u32, c: u32, d: u32)
    requires Reads(w)
    ensures LineOf(w, Quarter(a, b, c, d)) == WordQuarter(w(a), w(b), w(c), w(d))
  {
  }

  lemma ColumnsRead(w: nat -> bv32, x: State)
    requires Reads(w)
    ensures SquareOf(w, ColumnRounds(x)) == Columns(SquareOf(w, x))
  {
    var p, q, r, s := ColumnsAre(x);
    LineReads(w, x[0], x[4], x[8], x[12]);
    LineReads(w, x[1], x[5], x[9], x[13]);
    LineReads(w, x[2], x[6], x[10], x[14]);
    LineReads(w, x[3], x[7], x[11], x[15]);
  }

  lemma DiagonalsRead(w: nat -> bv32, x: State)
    requires Reads(w)
    ensures SquareOf(w, DiagonalRounds(x)) == Unshift(Columns(Shift(SquareOf(w, x))))
  {
    var p, q, r, s := DiagonalsAre(x);
    LineReads(w, x[0], x[5], x[10], x[15]);
    LineReads(w, x[1], x[6], x[11], x[12]);
    LineReads(w, x[2], x[7], x[8], x[13]);
    LineReads(w, x[3], x[4], x[9], x[14]);
  }

  /** A double round is a quarter round on every column of words, and then on every diagonal. */
  lemma DoubleRoundIs(x: State)
    ensures SquareOf(Word, DoubleRound(x)) == Unshift(Columns(Shift(Columns(SquareOf(Word, x)))))
  {
    WordReads();
    ColumnsRead(Word, x);
    DiagonalsRead(Word, ColumnRounds(x));
  }

  // ----- the values of RFC 8439 -----

  lemma Read(x: bv32, n: u32)
    requires Num(x) == n
    ensures Word(n) == x
  {
    WordNum(x);
  }

  lemma Written(n: u32, x: bv32)
    requires Word(n) == x
    ensures n == Num(x)
  {
    SmallMod(n);
    NumWord(n);
  }

  lemma WordQuarterVector()
    ensures WordQuarter(0x1111_1111, 0x0102_0304, 0x9b8d_6f43, 0x0123_4567)
            == Line(0xea2a_92f4, 0xcb1c_f8ce, 0x4581_472e, 0x5881_c4bb)
  {
  }

  /** Section 2.1.1. */
  lemma QuarterVector()
    ensures Quarter(0x1111_1111, 0x0102_0304, 0x9b8d_6f43, 0x0123_4567)
            == Quad(0xea2a_92f4, 0xcb1c_f8ce, 0x4581_472e, 0x5881_c4bb)
  {
    var q := Quarter(0x1111_1111, 0x0102_0304, 0x9b8d_6f43, 0x0123_4567);
    Read(0x1111_1111, 0x1111_1111);
    Read(0x0102_0304, 0x0102_0304);
    Read(0x9b8d_6f43, 0x9b8d_6f43);
    Read(0x0123_4567, 0x0123_4567);
    QuarterWord(0x1111_1111, 0x0102_0304, 0x9b8d_6f43, 0x0123_4567);
    WordQuarterVector();
    Written(q.a, 0xea2a_92f4);
    Written(q.b, 0xcb1c_f8ce);
    Written(q.c, 0x4581_472e);
    Written(q.d, 0x5881_c4bb);
  }

  // Section 2.3.2: the words before the first double round and after each.

  const WORDS_0 := Square(Line(0x6170_7865, 0x3320_646e, 0x7962_2d32, 0x6b20_6574),
                         Line(0x0302_0100, 0x0706_0504, 0x0b0a_0908, 0x0f0e_0d0c),
                         Line(0x1312_1110, 0x1716_1514, 0x1b1a_1918, 0x1f1e_1d1c),
                         Line(0x0000_0001, 0x0900_0000, 0x4a00_0000, 0x0000_0000))
  const WORDS_1 := Square(Line(0xcd52_e917, 0x85ab_03b4, 0xb345_7395, 0xf96d_e7dd),
                         Line(0xc4b7_cd22, 0x5c2e_187a, 0xc95e_b461, 0x316c_801a),
                         Line(0x7bf7_d740, 0x7edd_d644, 0xf1a1_bdf5, 0x7612_46ca),
                         Line(0x6b0d_58a3, 0x6798_471a, 0xd737_f167, 0xf173_888d))
  const WORDS_2 := Square(Line(0xcf1a_7584, 0x0489_27ec, 0x5405_1fda, 0xc244_ff28),
                         Line(0x901d_2f40, 0x7974_b81c, 0x378d_cfb4, 0xcd47_fd0e),
                         Line(0x2daf_b216, 0x27c8_9cd6, 0xcd3c_9aa0, 0x79fc_89c7),
                         Line(0x10ae_f18d, 0x1621_8765, 0x68f7_6705, 0x04d6_ee22))
  const WORDS_3 := Square(Line(0x03a1_4032, 0x66b1_5927, 0x9d6b_6b42, 0xb84c_4109),
                         Line(0xa714_3ae0, 0xa09b_33dd, 0xa5da_af88, 0x2fd9_1a73),
                         Line(0xc90c_6b18, 0x5a20_2413, 0xc20e_01b6, 0x72cd_6b74),
                         Line(0xba35_d777, 0xb360_f1bf, 0x8178_315b, 0x2cd1_1b1a))
  const WORDS_4 := Square(Line(0x9a2d_3589, 0x0b23_fc4e, 0x40af_3b6b, 0xceea_8144),
                         Line(0x0a1b_ffc6, 0x5e59_93f7, 0x9904_c2e7, 0x0d33_4718),
                         Line(0xe46c_6354, 0xc950_3229, 0x04fe_f5aa, 0xf893_3f72),
                         Line(0x2687_d476, 0x54e6_5231, 0x3594_ffc5, 0x2b3b_b2ca))
  const WORDS_5 := Square(Line(0xc533_18c5, 0xca32_5d96, 0x7e7d_11cb, 0x3404_e2ca),
                         Line(0x26d7_cf73, 0x6088_d379, 0xc0f0_e9bd, 0xe310_cdb9),
                         Line(0xae2c_a8db, 0x42f6_7c72, 0x7166_9aca, 0x975c_171d),
                         Line(0x9e5e_c228, 0x7d85_a9f3, 0x201d_0756, 0x63fa_6953))
  const WORDS_6 := Square(Line(0x04a3_131a, 0x6617_6309, 0x0415_bab1, 0x61b8_80a2),
                         Line(0x36cc_86c7, 0xbf8a_4465, 0xf77d_d720, 0xfc0b_dc90),
                         Line(0x07d1_3aca, 0xeb0b_e9af, 0x6159_9491, 0x9185_12dc),
                         Line(0x33b6_686d, 0x795c_c671, 0xc004_9972, 0xa0a8_1bde))
  const WORDS_7 := Square(Line(0x9b70_f51f, 0x7ea8_ac11, 0x21e5_4da9, 0xca39_3b2f),
                         Line(0x93b0_8686, 0x6a4c_50ae, 0x1921_2a5a, 0x9b03_2958),
                         Line(0xd839_165e, 0x4c06_e28a, 0xd3fd_e99e, 0x26ac_c13d),
                         Line(0xa609_f555, 0x2c24_6549, 0x9515_1853, 0x2c84_7a0d))
  const WORDS_8 := Square(Line(0xca5c_85dd, 0x93a4_f90e, 0xd9f0_df58, 0x26dd_82dd),
                         Line(0x9825_63f8, 0x712a_a9ff, 0x279a_61e8, 0x970f_72bd),
                         Line(0x1c25_931a, 0x5180_bb10, 0x779c_27e7, 0x5407_7e08),
                         Line(0xa9b7_51fb, 0x382f_3ce2, 0x8db1_757d, 0xcc38_080b))
  const WORDS_9 := Square(Line(0xb6b8_7de6, 0x9a01_6148, 0x9385_9815, 0x4915_e6cc),
                         Line(0xdc33_c122, 0x98e1_8fa3, 0x5ffb_e8fc, 0xf715_4b8b),
                         Line(0x28c1_fcb3, 0xc4b3_8f9d, 0x83e2_f5d7, 0x7d24_b98b),
                         Line(0x2107_8b22, 0xb193_e7a3, 0xb2f4_9389, 0x6cde_6026))
  const WORDS_10 := Square(Line(0x8377_78ab, 0xe238_d763, 0xa67a_e21e, 0x5950_bb2f),
                          Line(0xc4f2_d0c7, 0xfc62_bb2f, 0x8fa0_18fc, 0x3f5e_c7b7),
                          Line(0x3352_71c2, 0xf294_89f3, 0xeabd_a8fc, 0x82e4_6ebd),
                          Line(0xd19c_12b4, 0xb04e_16de, 0x9e83_d0cb, 0x4e3c_50a2))

  lemma Round0()
    ensures Double(WORDS_0) == WORDS_1
  {
  }

  lemma Round1()
    ensures Double(WORDS_1) == WORDS_2
  {
  }

  lemma Round2()
    ensures Double(WORDS_2) == WORDS_3
  {
  }

  lemma Round3()
    ensures Double(WORDS_3) == WORDS_4
  {
  }

  lemma Round4()
    ensures Double(WORDS_4) == WORDS_5
  {
  }

  lemma Round5()
    ensures Double(WORDS_5) == WORDS_6
  {
  }

  lemma Round6()
    ensures Double(WORDS_6) == WORDS_7
  {
  }

  lemma Round7()
    ensures Double(WORDS_7) == WORDS_8
  {
  }

  lemma Round8()
    ensures Double(WORDS_8) == WORDS_9
  {
  }

  lemma Round9()
    ensures Double(WORDS_9) == WORDS_10
  {
  }

  function Trace(i: nat): Square {
    match i
    case 0 => WORDS_0
    case 1 => WORDS_1
    case 2 => WORDS_2
    case 3 => WORDS_3
    case 4 => WORDS_4
    case 5 => WORDS_5
    case 6 => WORDS_6
    case 7 => WORDS_7
    case 8 => WORDS_8
    case 9 => WORDS_9
    case _ => WORDS_10
  }

  lemma TraceFollows(i: nat)
    requires i < 10
    ensures Double(Trace(i)) == Trace(i + 1)
  {
    match i
    case 0 => Round0();
    case 1 => Round1();
    case 2 => Round2();
    case 3 => Round3();
    case 4 => Round4();
    case 5 => Round5();
    case 6 => Round6();
    case 7 => Round7();
    case 8 => Round8();
    case 9 => Round9();
  }

  type Reading = nat -> bv32
  type Writing = bv32 -> u32

  predicate Spelt(v: Writing, x: State, i: nat, q: Line)
    requires i + 4 <= 16
  {
    x[i] == v(q.a) && x[i + 1] == v(q.b) && x[i + 2] == v(q.c) && x[i + 3] == v(q.d)
  }

  predicate Spells(v: Writing, x: State, m: Square) {
    Spelt(v, x, 0, m.r0) && Spelt(v, x, 4, m.r1) && Spelt(v, x, 8, m.r2) && Spelt(v, x, 12, m.r3)
  }

  /** Where numbers and words correspond one to one, a state reads as a square just when the square spells it. */
  lemma ReadIffSpelt(w: Reading, v: Writing, x: State, m: Square)
    requires forall z {:trigger v(z)} :: w(v(z)) == z
    requires forall n: u32 {:trigger w(n)} :: v(w(n)) == n
    ensures SquareOf(w, x) == m <==> Spells(v, x, m)
  {
  }

  lemma WordsSpell(x: State, m: Square)
    ensures SquareOf(Word, x) == m <==> Spells(Num, x, m)
  {
    forall z: bv32 {:trigger Num(z)}
      ensures Word(Num(z)) == z
    {
      WordNum(z);
    }
    forall n: u32 {:trigger Word(n)}
      ensures Num(Word(n)) == n
    {
      Written(n, Word(n));
    }
    ReadIffSpelt(Word, Num, x, m);
  }

  lemma TraceStep(y: State, k: nat)
    requires k < 10 && SquareOf(Word, y) == Trace(k)
    ensures SquareOf(Word, DoubleRound(y)) == Trace(k + 1)
  {
    DoubleRoundIs(y);
    TraceFollows(k);
  }

  lemma {:induction false} TraceRounds(f: RoundFn, h: State -> Square, t: nat -> Square, x: State, i: nat, n: nat)
    requires forall y: State, k: nat {:trigger f(y), t(k)} :: k < 10 && h(y) == t(k) ==> h(f(y)) == t(k + 1)
    requires i + n <= 10 && h(x) == t(i)
    ensures h(Iterate(f, x, n)) == t(i + n)
    decreases n
  {
    if n > 0 {
      TraceRounds(f, h, t, f(x), i + 1, n - 1);
    }
  }

  lemma TwentyRounds(f: RoundFn, x: State)
    requires IsDoubleRound(f) && SquareOf(Word, x) == Trace(0)
    ensures SquareOf(Word, Iterate(f, x, 10)) == Trace(10)
  {
    var h := (y: State) => SquareOf(Word, y);
    forall y: State, k: nat {:trigger f(y), Trace(k)} | k < 10 && h(y) == Trace(k)
      ensures h(f(y)) == Trace(k + 1)
    {
      TraceStep(y, k);
    }
    TraceRounds(f, h, Trace, x, 0, 10);
  }

  const VECTOR_STATE: State :=
    [0x6170_7865, 0x3320_646e, 0x7962_2d32, 0x6b20_6574,
     0x0302_0100, 0x0706_0504, 0x0b0a_0908, 0x0f0e_0d0c,
     0x1312_1110, 0x1716_1514, 0x1b1a_1918, 0x1f1e_1d1c,
     0x0000_0001, 0x0900_0000, 0x4a00_0000, 0x0000_0000]

  const VECTOR_BLOCK: State :=
    [0xe4e7_f110, 0x1559_3bd1, 0x1fdd_0f50, 0xc471_20a3,
     0xc7f4_d1c7, 0x0368_c033, 0x9aaa_2204, 0x4e6c_d4c3,
     0x4664_82d2, 0x09aa_9f07, 0x05d7_c214, 0xa202_8bd9,
     0xd19c_12b5, 0xb94e_16de, 0xe883_d0cb, 0x4e3c_50a2]

  lemma VectorSpelt()
    ensures Spells(Num, VECTOR_STATE, WORDS_0)
  {
  }

  lemma VectorRounds(f: RoundFn, x: State) returns (y: State)
    requires IsDoubleRound(f) && x == VECTOR_STATE
    ensures y == Iterate(f, x, 10) && Spells(Num, y, WORDS_10)
  {
    VectorSpelt();
    WordsSpell(x, WORDS_0);
    TwentyRounds(f, x);
    y := Iterate(f, x, 10);
    WordsSpell(y, WORDS_10);
  }

  lemma VectorAdded(y: State, i: nat)
    requires Spells(Num, y, WORDS_10) && i < 16
    ensures Add32(y[i], VECTOR_STATE[i]) == VECTOR_BLOCK[i]
  {
  }

  lemma VectorWord(f: RoundFn, x: State, i: nat)
    requires IsDoubleRound(f) && x == VECTOR_STATE && i < 16
    ensures BlockWord(f, x, i) == VECTOR_BLOCK[i]
  {
    var y := VectorRounds(f, x);
    VectorAdded(y, i);
  }

  /** The bytes of a block are those of its words, lowest first. */
  lemma FrontBytes(f: RoundFn, x: State, v: u32, w: u32)
    requires v == BlockWord(f, x, 0) && w == BlockWord(f, x, 1)
    ensures BlockBytes(f, x)[..8] ==
            [Store(v, 0), Store(v, 1), Store(v, 2), Store(v, 3), Store(w, 0), Store(w, 1), Store(w, 2), Store(w, 3)]
  {
  }

  lemma VectorFront()
    ensures var v, w := VECTOR_BLOCK[0], VECTOR_BLOCK[1];
            [Store(v, 0), Store(v, 1), Store(v, 2), Store(v, 3), Store(w, 0), Store(w, 1), Store(w, 2), Store(w, 3)]
            == [0x10, 0xf1, 0xe7, 0xe4, 0xd1, 0x3b, 0x59, 0x15]
  {
  }

  /** The block of section 2.3.2, as words and, at the front, as bytes. */
  lemma BlockVector(f: RoundFn, x: State)
    requires IsDoubleRound(f) && x == VECTOR_STATE
    ensures forall i :: 0 <= i < 16 ==> BlockWord(f, x, i) == VECTOR_BLOCK[i]
    ensures BlockBytes(f, x)[..8] == [0x10, 0xf1, 0xe7, 0xe4, 0xd1, 0x3b, 0x59, 0x15]
  {
    forall i | 0 <= i < 16
      ensures BlockWord(f, x, i) == VECTOR_BLOCK[i]
    {
      VectorWord(f, x, i);
    }
    FrontBytes(f, x, VECTOR_BLOCK[0], VECTOR_BLOCK[1]);
    VectorFront();
  }
}
