/** The journal checksum: `crc32` of host/journal.ts against bit-serial CRC-32 (section 3.2.9 of IEEE 802.3). */
module Crc {
  import opened Powers
  import opened ByteStrings

  const POLY: bv32 := 0xedb8_8320

  /** One bit of the division: shift the register, and subtract the polynomial when a one falls out. */
  function Step(c: bv32): bv32 {
    if c & 1 == 1 then (c >> 1) ^ POLY else c >> 1
  }

  function Steps(c: bv32, n: nat): bv32
    decreases n
  {
    if n == 0 then c else Steps(Step(c), n - 1)
  }

  function Xor(x: bv32, y: bv32): bv32 {
    x ^ y
  }

  function Double(x: bv32): bv32 {
    x << 1
  }

  // ----- the bit-serial reference -----

  /** The bits of a byte enter the division one at a time, the least significant first. */
  function SerialByte(c: bv32, b: bv32, n: nat): bv32
    decreases n
  {
    if n == 0 then c else SerialByte(Step(Xor(c, b & 1)), b >> 1, n - 1)
  }

  /** The division of a whole byte string, bit by bit. */
  function Serial(c: bv32, s: seq<Byte>): bv32
    decreases |s|
  {
    if s == [] then c else Serial(SerialByte(c, Word(s[0]), 8), s[1..])
  }

  function Half(x: bv32): bv32 {
    x >> 1
  }

  predicate Odd(x: bv32) {
    x & 1 == 1
  }

  /** The word 2 x + bit. */
  function Attach(x: bv32, bit: bool): bv32 {
    Xor(Double(x), if bit then 1 else 0)
  }

  /** The n low bits of b as a word. */
  function WordOf(b: nat, n: nat): bv32
    decreases n
  {
    if n == 0 then 0 else Attach(WordOf(b / 2, n - 1), b % 2 == 1)
  }

  /** The n low bits of x as a number. */
  function NumberOf(x: bv32, n: nat): nat
    decreases n
  {
    if n == 0 then 0 else 2 * NumberOf(Half(x), n - 1) + if Odd(x) then 1 else 0
  }

  function Word(b: Byte): bv32 {
    WordOf(b, 8)
  }

  /** The i-th byte of a word. */
  function Part(x: bv32, i: nat): bv32 {
    (if i == 0 then x else if i == 1 then x >> 8 else if i == 2 then x >> 16 else x >> 24) & 0xff
  }

  /** A word as a number, by its bytes. */
  function Value(x: bv32): nat {
    NumberOf(Part(x, 0), 8) + 0x100 * NumberOf(Part(x, 1), 8) +
    0x1_0000 * NumberOf(Part(x, 2), 8) + 0x100_0000 * NumberOf(Part(x, 3), 8)
  }

  /** The checksum of a string: the division started from all ones, and complemented. */
  function Checksum(s: seq<Byte>): nat {
    Value(Xor(Serial(0xffff_ffff, s), 0xffff_ffff))
  }

  // ----- one step is linear and loses nothing -----

  lemma Parity(x: bv32, y: bv32)
    ensures (x ^ y) & 1 == (x & 1) ^ (y & 1)
    ensures (x & 1 == 0) || (x & 1 == 1)
    ensures (y & 1 == 0) || (y & 1 == 1)
  {}

  lemma ShiftLinear(x: bv32, y: bv32)
    ensures (x ^ y) >> 1 == (x >> 1) ^ (y >> 1)
  {}

  lemma XorPoly(x: bv32, y: bv32)
    ensures (x ^ POLY) ^ (y ^ POLY) == x ^ y
    ensures (x ^ POLY) ^ y == (x ^ y) ^ POLY
    ensures x ^ (y ^ POLY) == (x ^ y) ^ POLY
  {}

  lemma StepXor(x: bv32, y: bv32)
    ensures Step(x ^ y) == Step(x) ^ Step(y)
  {
    Parity(x, y);
    ShiftLinear(x, y);
    XorPoly(x >> 1, y >> 1);
  }

  lemma StepLinear(x: bv32, y: bv32)
    ensures Step(Xor(x, y)) == Xor(Step(x), Step(y))
  {
    hide Step;
    StepXor(x, y);
  }

  lemma StepInjective(x: bv32, y: bv32)
    ensures Step(x) == Step(y) ==> x == y
  {}

  lemma XorAssoc(x: bv32, y: bv32, z: bv32)
    ensures Xor(Xor(x, y), z) == Xor(x, Xor(y, z))
  {}

  lemma XorCancel(x: bv32, y: bv32, z: bv32)
    ensures Xor(x, y) == Xor(x, z) ==> y == z
  {}

  lemma XorZero(x: bv32)
    ensures Xor(x, 0) == x
  {}

  lemma {:induction false} StepsLinear(x: bv32, y: bv32, n: nat)
    ensures Steps(Xor(x, y), n) == Xor(Steps(x, n), Steps(y, n))
    decreases n
  {
    hide Step, Xor;
    if n > 0 {
      StepLinear(x, y);
      StepsLinear(Step(x), Step(y), n - 1);
    }
  }

  lemma {:induction false} StepsInjective(x: bv32, y: bv32, n: nat)
    ensures Steps(x, n) == Steps(y, n) ==> x == y
    decreases n
  {
    hide Step;
    if n > 0 {
      StepsInjective(Step(x), Step(y), n - 1);
      StepInjective(x, y);
    }
  }

  lemma {:induction false} StepsAdd(c: bv32, m: nat, n: nat)
    ensures Steps(c, m + n) == Steps(Steps(c, m), n)
    decreases m
  {
    hide Step;
    if m > 0 {
      StepsAdd(Step(c), m - 1, n);
    }
  }

  /** x moved up by n bits; nothing falls out while it fits. */
  function Up(x: bv32, n: nat): bv32
    decreases n
  {
    if n == 0 then x else Double(Up(x, n - 1))
  }

  lemma StepDouble(x: bv32)
    requires x < 0x8000_0000
    ensures Step(Double(x)) == x
  {}

  /** 2^(24 + n) */
  function Bound(n: nat): bv32
    requires n <= 7
  {
    [0x100_0000, 0x200_0000, 0x400_0000, 0x800_0000, 0x1000_0000, 0x2000_0000, 0x4000_0000, 0x8000_0000][n]
  }

  predicate Under(x: bv32, n: nat)
    requires n <= 7
  {
    x < Bound(n)
  }

  lemma DoubleUnder(x: bv32, n: nat)
    requires n < 7 && Under(x, n)
    ensures Under(Double(x), n + 1)
  {}

  lemma StepUnder(x: bv32, n: nat)
    requires n <= 7 && Under(x, n)
    ensures Step(Double(x)) == x
  {}

  lemma {:induction false} UpFits(x: bv32, n: nat)
    requires n <= 7 && Under(x, 0)
    ensures Under(Up(x, n), n)
    decreases n
  {
    hide Double, Under;
    if n > 0 {
      UpFits(x, n - 1);
      DoubleUnder(Up(x, n - 1), n - 1);
    }
  }

  /** A word of 24 bits that has not reached the end of the register only moves. */
  lemma {:induction false} Shifts(x: bv32, n: nat)
    requires n <= 8 && Under(x, 0)
    ensures Steps(Up(x, n), n) == x
    decreases n
  {
    hide Step, Double, Under;
    if n > 0 {
      UpFits(x, n - 1);
      StepUnder(Up(x, n - 1), n - 1);
      Shifts(x, n - 1);
    }
  }

  lemma {:induction false} UpAdd(x: bv32, m: nat, n: nat)
    ensures Up(x, m + n) == Up(Up(x, m), n)
    decreases n
  {
    hide Double;
    if n > 0 {
      UpAdd(x, m, n - 1);
    }
  }

  lemma UpTwo(x: bv32)
    ensures Up(x, 2) == x << 2
  {
    assert Up(x, 1) == x << 1 by { assert Up(x, 0) == x; }
  }

  lemma ShiftTwice(x: bv32)
    ensures (x << 2) << 2 == x << 4 && (x << 4) << 4 == x << 8
  {}

  lemma UpFour(x: bv32)
    ensures Up(x, 4) == x << 4
  {
    assert Up(x, 4) == Up(x << 2, 2) by { UpAdd(x, 2, 2); UpTwo(x); }
    assert Up(x << 2, 2) == (x << 2) << 2 by { UpTwo(x << 2); }
    hide Up;
    ShiftTwice(x);
  }

  lemma UpEight(x: bv32)
    ensures Up(x, 8) == x << 8
  {
    assert Up(x, 8) == Up(x << 4, 4) by { UpAdd(x, 4, 4); UpFour(x); }
    assert Up(x << 4, 4) == (x << 4) << 4 by { UpFour(x << 4); }
    hide Up;
    ShiftTwice(x);
  }

  // ----- the table -----

  /** An entry of `CRC_TABLE` (host/journal.ts:262-268). */
  function TableEntry(i: bv32): bv32 {
    Steps(i, 8)
  }

  lemma SplitWord(x: bv32)
    ensures x == (x & 0xff) ^ ((x >> 8) << 8) && x >> 8 < 0x100_0000
  {}

  lemma SplitXor(x: bv32)
    ensures x == Xor(x & 0xff, Up(x >> 8, 8)) && Under(x >> 8, 0)
  {
    UpEight(x >> 8);
    SplitWord(x);
    hide Up;
  }

  lemma HighByte(c: bv32, b: bv32)
    requires b < 256
    ensures Xor(c, b) >> 8 == c >> 8
  {}

  /** One table look-up does the work of eight divisions. */
  lemma TableStep(c: bv32, b: bv32)
    requires b < 256
    ensures Xor(TableEntry(Xor(c, b) & 0xff), c >> 8) == Steps(Xor(c, b), 8)
  {
    var x := Xor(c, b);
    HighByte(c, b);
    SplitXor(x);
    hide Steps, Xor, Up, Under;
    StepsLinear(x & 0xff, Up(x >> 8, 8), 8);
    Shifts(x >> 8, 8);
  }

  // ----- the bits of a byte, fed in one by one -----

  lemma LowBit(b: bv32)
    ensures b == Xor(b & 1, Double(b >> 1)) && b >> 1 < 0x8000_0000
  {}

  /** Feeding the bits of a byte one by one does what adding the byte first does. */
  lemma {:induction false} SerialIsSteps(c: bv32, b: bv32, n: nat)
    requires n <= 8 && Top(b, n)
    ensures SerialByte(c, b, n) == Steps(Xor(c, b), n)
    decreases n
  {
    if n == 0 {
      XorZero(c);
    } else {
      var low, rest := b & 1, b >> 1;
      LowBit(b);
      TopRest(b, n);
      StepDouble(rest);
      hide Xor, Step, Double, Top;
      XorAssoc(c, low, Double(rest));
      StepLinear(Xor(c, low), Double(rest));
      SerialIsSteps(Step(Xor(c, low)), rest, n - 1);
    }
  }

  /** b has at most n bits. */
  predicate Top(b: bv32, n: nat)
    requires n <= 8
  {
    b < [1, 2, 4, 8, 16, 32, 64, 128, 256][n]
  }

  lemma TopRest(b: bv32, n: nat)
    requires 1 <= n <= 8 && Top(b, n)
    ensures Top(b >> 1, n - 1)
  {}

  // ----- `crc32` -----

  lemma AttachParts(x: bv32, bit: bool, n: nat)
    requires n < 8 && Top(x, n)
    ensures Top(Attach(x, bit), n + 1)
    ensures Half(Attach(x, bit)) == x && Odd(Attach(x, bit)) == bit
  {}

  lemma {:induction false} WordTop(b: nat, n: nat)
    requires n <= 8
    ensures Top(WordOf(b, n), n)
    ensures n > 0 ==> Half(WordOf(b, n)) == WordOf(b / 2, n - 1) && Odd(WordOf(b, n)) == (b % 2 == 1)
    decreases n
  {
    hide Attach, Half, Odd, Top;
    if n == 0 {
      TopZero();
    } else {
      WordTop(b / 2, n - 1);
      AttachParts(WordOf(b / 2, n - 1), b % 2 == 1, n - 1);
    }
  }

  lemma TopZero()
    ensures Top(0, 0)
  {}

  lemma TopEight(x: bv32)
    requires Top(x, 8)
    ensures x < 256
  {}

  /** Words of bytes are numbers again. */
  lemma {:induction false} NumberOfWord(b: nat, n: nat)
    requires n <= 8 && b < Pow(2, n)
    ensures NumberOf(WordOf(b, n), n) == b
    decreases n
  {
    hide Attach, Half, Odd, Top;
    WordTop(b, n);
    if n > 0 {
      NumberOfWord(b / 2, n - 1);
    }
  }

  lemma WordInjective(a: Byte, b: Byte)
    requires Word(a) == Word(b)
    ensures a == b
  {
    NumberOfWord(a, 8);
    NumberOfWord(b, 8);
  }

  lemma HalvesEqual(x: bv32, y: bv32)
    ensures Half(x) == Half(y) && Odd(x) == Odd(y) ==> x == y
  {}

  lemma NumberStep(x: bv32, y: bv32, n: nat)
    requires n > 0 && NumberOf(x, n) == NumberOf(y, n)
    ensures NumberOf(Half(x), n - 1) == NumberOf(Half(y), n - 1) && Odd(x) == Odd(y)
  {
    hide Half, Odd;
  }

  lemma TopHalf(x: bv32, n: nat)
    requires 1 <= n <= 8 && Top(x, n)
    ensures Top(Half(x), n - 1)
  {}

  lemma TopZeroOnly(x: bv32)
    requires Top(x, 0)
    ensures x == 0
  {}

  lemma {:induction false} NumberBound(x: bv32, n: nat)
    ensures NumberOf(x, n) < Pow(2, n)
    decreases n
  {
    hide Half, Odd;
    if n > 0 {
      NumberBound(Half(x), n - 1);
    }
  }

  lemma {:induction false} NumberInjective(x: bv32, y: bv32, n: nat)
    requires n <= 8 && Top(x, n) && Top(y, n) && NumberOf(x, n) == NumberOf(y, n)
    ensures x == y
    decreases n
  {
    if n == 0 {
      TopZeroOnly(x);
      TopZeroOnly(y);
    } else {
      hide Half, Odd, Top, NumberOf;
      TopHalf(x, n);
      TopHalf(y, n);
      NumberStep(x, y, n);
      NumberInjective(Half(x), Half(y), n - 1);
      HalvesEqual(x, y);
    }
  }

  lemma PartTop(x: bv32, i: nat)
    ensures Top(Part(x, i), 8)
  {}

  lemma FourParts(x: bv32, y: bv32)
    requires Part(x, 0) == Part(y, 0) && Part(x, 1) == Part(y, 1) && Part(x, 2) == Part(y, 2) && Part(x, 3) == Part(y, 3)
    ensures x == y
  {}

  lemma PartBound(x: bv32, i: nat)
    ensures NumberOf(Part(x, i), 8) < 256
  {
    NumberBound(Part(x, i), 8);
    assert Pow(2, 8) == 256;
  }

  lemma PartEqual(x: bv32, y: bv32, i: nat)
    requires NumberOf(Part(x, i), 8) == NumberOf(Part(y, i), 8)
    ensures Part(x, i) == Part(y, i)
  {
    hide Part, Top, NumberOf;
    PartTop(x, i);
    PartTop(y, i);
    NumberInjective(Part(x, i), Part(y, i), 8);
  }

  lemma ValueBytes(a: nat, b: nat, c: nat, d: nat, a': nat, b': nat, c': nat, d': nat)
    requires a < 256 && b < 256 && c < 256 && a' < 256 && b' < 256 && c' < 256
    requires a + 0x100 * b + 0x1_0000 * c + 0x100_0000 * d == a' + 0x100 * b' + 0x1_0000 * c' + 0x100_0000 * d'
    ensures a == a' && b == b' && c == c' && d == d'
  {}

  lemma ValueInjective(x: bv32, y: bv32)
    requires Value(x) == Value(y)
    ensures x == y
  {
    hide Part, NumberOf;
    PartBound(x, 0); PartBound(x, 1); PartBound(x, 2);
    PartBound(y, 0); PartBound(y, 1); PartBound(y, 2);
    ValueBytes(NumberOf(Part(x, 0), 8), NumberOf(Part(x, 1), 8), NumberOf(Part(x, 2), 8), NumberOf(Part(x, 3), 8),
               NumberOf(Part(y, 0), 8), NumberOf(Part(y, 1), 8), NumberOf(Part(y, 2), 8), NumberOf(Part(y, 3), 8));
    PartEqual(x, y, 0);
    PartEqual(x, y, 1);
    PartEqual(x, y, 2);
    PartEqual(x, y, 3);
    FourParts(x, y);
  }

  lemma ValueBound(x: bv32)
    ensures Value(x) < 0x1_0000_0000
  {
    hide Part, NumberOf;
    PartBound(x, 0); PartBound(x, 1); PartBound(x, 2); PartBound(x, 3);
  }

  lemma {:induction false} SerialSnoc(c: bv32, s: seq<Byte>, b: Byte)
    ensures Serial(c, s + [b]) == SerialByte(Serial(c, s), Word(b), 8)
    decreases |s|
  {
    hide SerialByte, Word;
    if s == [] {
      assert (s + [b])[1..] == [];
    } else {
      assert (s + [b])[1..] == s[1..] + [b];
      SerialSnoc(SerialByte(c, Word(s[0]), 8), s[1..], b);
    }
  }

  // ----- `crc32` -----

  ghost predicate IsTable(table: seq<bv32>) {
    |table| == 256 && forall i: nat :: i < 256 ==> table[i] == TableEntry(Word(i))
  }

  /** `CRC_TABLE` (host/journal.ts:262-268): eight steps for each index. */
  method Table() returns (table: seq<bv32>)
    ensures IsTable(table)
  {
    hide TableEntry, Word;
    table := [];
    for i := 0 to 256
      invariant |table| == i && forall k: nat :: k < i ==> table[k] == TableEntry(Word(k))
    {
      var crc := TableRow(Word(i));
      table := table + [crc];
    }
  }

  method TableRow(i: bv32) returns (crc: bv32)
    ensures crc == TableEntry(i)
  {
    crc := i;
    for bit := 0 to 8
      invariant Steps(crc, 8 - bit) == TableEntry(i)
    {
      crc := if crc & 1 == 1 then (crc >> 1) ^ POLY else crc >> 1;
    }
  }

  /** The low byte of the register, as a table index. */
  function Index(x: bv32): nat {
    NumberOf(Part(x, 0), 8)
  }

  lemma LowIndex(x: bv32)
    ensures Index(x) < 256 && Word(Index(x)) == x & 0xff
  {
    var y := Part(x, 0);
    assert y == x & 0xff;
    PartTop(x, 0);
    hide Part, Top, NumberOf, WordOf;
    PartBound(x, 0);
    NumberOfWord(Index(x), 8) by { assert Pow(2, 8) == 256; }
    WordTop(Index(x), 8);
    NumberInjective(WordOf(Index(x), 8), y, 8);
  }

  /** A byte through the register. */
  function Feed(c: bv32, b: Byte): bv32 {
    Steps(Xor(c, Word(b)), 8)
  }

  lemma FeedIsSerial(c: bv32, b: Byte)
    ensures Feed(c, b) == SerialByte(c, Word(b), 8)
    ensures Feed(c, b) == Xor(TableEntry(Xor(c, Word(b)) & 0xff), c >> 8)
  {
    WordTop(b, 8);
    TopEight(Word(b));
    hide SerialByte, Steps, Xor, Top, TableEntry;
    SerialIsSteps(c, Word(b), 8);
    TableStep(c, Word(b));
  }

  /** `crc32` (host/journal.ts:271-277) computes the bit-serial checksum. */
  method Crc32(table: seq<bv32>, bytes: seq<Byte>) returns (n: nat)
    requires IsTable(table)
    ensures n == Checksum(bytes)
  {
    var crc: bv32 := 0xffff_ffff;
    hide SerialByte, Serial, TableEntry, Steps, Value, Xor, Word, Index;
    assert Serial(crc, []) == crc by { SerialEmpty(crc); }
    for i := 0 to |bytes|
      invariant crc == Serial(0xffff_ffff, bytes[..i])
    {
      var b := bytes[i];
      assert bytes[..i + 1] == bytes[..i] + [b];
      SerialSnoc(0xffff_ffff, bytes[..i], b);
      FeedIsSerial(crc, b);
      LowIndex(Xor(crc, Word(b)));
      crc := Xor(table[Index(Xor(crc, Word(b)))], crc >> 8);
    }
    assert bytes[..|bytes|] == bytes;
    n := Value(Xor(crc, 0xffff_ffff));
  }

  lemma SerialEmpty(c: bv32)
    ensures Serial(c, []) == c
  {}

  // ----- the polynomial and the check value -----

  /** The generator's terms below x^32 (section 3.2.9 of IEEE 802.3), the term x^i at bit 31 - i. */
  lemma PolyTerms(i: nat)
    requires i < 32
    ensures (POLY >> (31 - i)) & 1 == 1 <==> i in {0, 1, 2, 4, 5, 7, 8, 10, 11, 12, 16, 22, 23, 26}
  {}

  lemma CheckBytes()
    ensures SerialByte(0xffff_ffff, 0x31, 8) == 0x7c23_1048 && SerialByte(0x7c23_1048, 0x32, 8) == 0xb0ac_bb32
    ensures SerialByte(0xb0ac_bb32, 0x33, 8) == 0x77b7_9c2d && SerialByte(0x77b7_9c2d, 0x34, 8) == 0x641c_1f5c
    ensures SerialByte(0x641c_1f5c, 0x35, 8) == 0x340a_c5e3 && SerialByte(0x340a_c5e3, 0x36, 8) == 0xf68d_2c9e
    ensures SerialByte(0xf68d_2c9e, 0x37, 8) == 0xaffc_9660 && SerialByte(0xaffc_9660, 0x38, 8) == 0x651f_2550
    ensures SerialByte(0x651f_2550, 0x39, 8) == 0x340b_c6d9 && Xor(0x340b_c6d9, 0xffff_ffff) == 0xcbf4_3926
  {}

  lemma TopIs(w: bv32)
    requires w < 0x100
    ensures Top(w, 8)
  {}

  lemma WordIs(b: Byte, w: bv32)
    requires NumberOf(w, 8) == b && w < 0x100
    ensures Word(b) == w
  {
    TopIs(w);
    hide NumberOf, Top;
    WordTop(b, 8);
    assert Pow(2, 8) == 256;
    NumberOfWord(b, 8);
    NumberInjective(WordOf(b, 8), w, 8);
  }

  lemma CheckWords()
    ensures Word(0x31) == 0x31 && Word(0x32) == 0x32 && Word(0x33) == 0x33 && Word(0x34) == 0x34 && Word(0x35) == 0x35
    ensures Word(0x36) == 0x36 && Word(0x37) == 0x37 && Word(0x38) == 0x38 && Word(0x39) == 0x39
  {
    hide WordOf, Word;
    WordIs(0x31, 0x31);
    WordIs(0x32, 0x32);
    WordIs(0x33, 0x33);
    WordIs(0x34, 0x34);
    WordIs(0x35, 0x35);
    WordIs(0x36, 0x36);
    WordIs(0x37, 0x37);
    WordIs(0x38, 0x38);
    WordIs(0x39, 0x39);
  }

  lemma CheckParts()
    ensures Part(0xcbf4_3926, 0) == 0x26 && Part(0xcbf4_3926, 1) == 0x39
    ensures Part(0xcbf4_3926, 2) == 0xf4 && Part(0xcbf4_3926, 3) == 0xcb
  {}

  lemma LowNumbers()
    ensures NumberOf(0x26, 8) == 0x26 && NumberOf(0x39, 8) == 0x39
  {
    hide WordOf, Word, Part, Value, Steps, Serial, SerialByte;
    assert NumberOf(0x26, 8) == 0x26;
  }

  lemma HighNumbers()
    ensures NumberOf(0xf4, 8) == 0xf4 && NumberOf(0xcb, 8) == 0xcb
  {
    hide WordOf, Word, Part, Value, Steps, Serial, SerialByte;
    assert NumberOf(0xf4, 8) == 0xf4;
  }

  lemma CheckNumber()
    ensures Value(0xcbf4_3926) == 0xcbf4_3926
  {
    hide Part, NumberOf;
    CheckParts();
    LowNumbers();
    HighNumbers();
  }

  lemma Fed(s: seq<Byte>, b: Byte, c: bv32, w: bv32, d: bv32)
    requires Serial(0xffff_ffff, s) == c && Word(b) == w && SerialByte(c, w, 8) == d
    ensures Serial(0xffff_ffff, s + [b]) == d
  {
    hide SerialByte, Serial, Word;
    SerialSnoc(0xffff_ffff, s, b);
  }

  /** The check value of CRC-32: the checksum of the text "123456789". */
  lemma CheckValue()
    ensures Checksum([0x31, 0x32, 0x33, 0x34, 0x35, 0x36, 0x37, 0x38, 0x39]) == 0xcbf4_3926
  {
    hide SerialByte, Serial, Word, Xor, Value;
    CheckBytes();
    CheckWords();
    CheckNumber();
    SerialEmpty(0xffff_ffff);
    var s0: seq<Byte> := [];
    Fed(s0, 0x31, 0xffff_ffff, 0x31, 0x7c23_1048);
    var s1 := s0 + [0x31];
    Fed(s1, 0x32, 0x7c23_1048, 0x32, 0xb0ac_bb32);
    var s2 := s1 + [0x32];
    Fed(s2, 0x33, 0xb0ac_bb32, 0x33, 0x77b7_9c2d);
    var s3 := s2 + [0x33];
    Fed(s3, 0x34, 0x77b7_9c2d, 0x34, 0x641c_1f5c);
    var s4 := s3 + [0x34];
    Fed(s4, 0x35, 0x641c_1f5c, 0x35, 0x340a_c5e3);
    var s5 := s4 + [0x35];
    Fed(s5, 0x36, 0x340a_c5e3, 0x36, 0xf68d_2c9e);
    var s6 := s5 + [0x36];
    Fed(s6, 0x37, 0xf68d_2c9e, 0x37, 0xaffc_9660);
    var s7 := s6 + [0x37];
    Fed(s7, 0x38, 0xaffc_9660, 0x38, 0x651f_2550);
    var s8 := s7 + [0x38];
    Fed(s8, 0x39, 0x651f_2550, 0x39, 0x340b_c6d9);
    assert s8 + [0x39] == [0x31, 0x32, 0x33, 0x34, 0x35, 0x36, 0x37, 0x38, 0x39];
  }

  // ----- bursts of at most four bytes are always seen -----

  lemma {:induction false} SerialAppend(c: bv32, s: seq<Byte>, t: seq<Byte>)
    ensures Serial(c, s + t) == Serial(Serial(c, s), t)
    decreases |s|
  {
    hide SerialByte, Word;
    if s == [] {
      assert s + t == t;
    } else {
      assert (s + t)[1..] == s[1..] + t;
      SerialAppend(SerialByte(c, Word(s[0]), 8), s[1..], t);
    }
  }

  lemma FeedInjective(c: bv32, d: bv32, b: Byte)
    requires Feed(c, b) == Feed(d, b)
    ensures c == d
  {
    StepsInjective(Xor(c, Word(b)), Xor(d, Word(b)), 8);
    XorCommutes(c, Word(b));
    XorCommutes(d, Word(b));
    hide Xor, Steps, Word;
    XorCancel(Word(b), c, d);
  }

  lemma XorCommutes(x: bv32, y: bv32)
    ensures Xor(x, y) == Xor(y, x)
  {}

  /** Different registers stay different through the same bytes. */
  lemma {:induction false} SerialInjective(c: bv32, d: bv32, s: seq<Byte>)
    requires Serial(c, s) == Serial(d, s)
    ensures c == d
    decreases |s|
  {
    hide SerialByte, Feed, Word;
    if s != [] {
      SerialInjective(SerialByte(c, Word(s[0]), 8), SerialByte(d, Word(s[0]), 8), s[1..]);
      FeedIsSerial(c, s[0]);
      FeedIsSerial(d, s[0]);
      FeedInjective(c, d, s[0]);
    }
  }

  /** Up to four bytes as one word, the first one lowest. */
  function Pack(s: seq<Byte>): bv32 {
    if s == [] then 0 else Xor(Word(s[0]), Up(Pack(s[1..]), 8))
  }

  /** x has at most k bytes. */
  predicate Bytes(x: bv32, k: nat) {
    if k == 0 then x == 0 else if k == 1 then x < 0x100 else if k == 2 then x < 0x1_0000 else k == 3 ==> x < 0x100_0000
  }

  /** The byte w below the word p. */
  function Join(w: bv32, p: bv32): bv32 {
    w ^ (p << 8)
  }

  lemma JoinZero(w: bv32)
    requires w < 256
    ensures Join(w, 0) < 0x100
  {}

  lemma JoinByte(w: bv32, p: bv32)
    requires w < 256 && p < 0x100
    ensures Join(w, p) < 0x1_0000
  {}

  lemma JoinTwo(w: bv32, p: bv32)
    requires w < 256 && p < 0x1_0000
    ensures Join(w, p) < 0x100_0000
  {}

  lemma JoinApart(w: bv32, p: bv32)
    requires w < 256 && p < 0x100_0000
    ensures Join(w, p) & 0xff == w && Join(w, p) >> 8 == p
  {}

  lemma JoinBytes(w: bv32, p: bv32, k: nat)
    requires w < 256 && k <= 3 && Bytes(p, k)
    ensures Bytes(Join(w, p), k + 1)
  {
    hide Join;
    if k == 0 {
      JoinZero(w);
    } else if k == 1 {
      JoinByte(w, p);
    } else if k == 2 {
      JoinTwo(w, p);
    }
  }

  lemma BytesBound(p: bv32, k: nat)
    requires k <= 3 && Bytes(p, k)
    ensures p < 0x100_0000 && Under(p, 0)
  {}

  lemma WordSmall(b: Byte)
    ensures Word(b) < 256
  {
    WordTop(b, 8);
    TopEight(WordOf(b, 8));
    hide WordOf, Top;
  }

  lemma XorIsJoin(w: bv32, p: bv32)
    ensures Xor(w, p << 8) == Join(w, p)
  {}

  lemma PackIsJoin(s: seq<Byte>)
    requires s != []
    ensures Pack(s) == Join(Word(s[0]), Pack(s[1..]))
  {
    hide Up, Word, Xor, Join;
    UpEight(Pack(s[1..]));
    XorIsJoin(Word(s[0]), Pack(s[1..]));
  }

  lemma {:induction false} PackBytes(s: seq<Byte>)
    requires |s| <= 4
    ensures Bytes(Pack(s), |s|)
    ensures s != [] ==> Pack(s) & 0xff == Word(s[0]) && Pack(s) >> 8 == Pack(s[1..]) && Under(Pack(s[1..]), 0)
  {
    if s == [] {
      NoBytes();
    } else {
      PackIsJoin(s);
      WordSmall(s[0]);
      hide Word, Bytes, Under, Pack, Join;
      PackBytes(s[1..]);
      JoinBytes(Word(s[0]), Pack(s[1..]), |s| - 1);
      BytesBound(Pack(s[1..]), |s| - 1);
      JoinApart(Word(s[0]), Pack(s[1..]));
    }
  }

  lemma NoBytes()
    ensures Bytes(0, 0)
  {}

  lemma {:induction false} PackInjective(s: seq<Byte>, t: seq<Byte>)
    requires |s| == |t| <= 4 && Pack(s) == Pack(t)
    ensures s == t
  {
    hide Xor, Word, Up, Under, Bytes, Pack;
    PackBytes(s);
    PackBytes(t);
    if s != [] {
      WordInjective(s[0], t[0]);
      PackInjective(s[1..], t[1..]);
      assert s == [s[0]] + s[1..] && t == [t[0]] + t[1..];
    }
  }

  /** Four bytes at most enter the register as one word. */
  lemma {:induction false} SerialPacks(c: bv32, s: seq<Byte>)
    requires |s| <= 4
    ensures Serial(c, s) == Steps(Xor(c, Pack(s)), 8 * |s|)
    decreases |s|
  {
    if s == [] {
      XorZero(c);
    } else {
      hide Xor, Word, Up, Under, Bytes, Steps, SerialByte, Feed;
      var w, p, n := Word(s[0]), Pack(s[1..]), 8 * (|s| - 1);
      PackBytes(s);
      FeedIsSerial(c, s[0]);
      XorAssoc(c, w, Up(p, 8));
      StepsAdd(Xor(c, Pack(s)), 8, n);
      StepsLinear(Xor(c, w), Up(p, 8), 8);
      Shifts(p, 8);
      SerialPacks(Feed(c, s[0]), s[1..]);
    }
  }

  /** Strings of one length that differ only within four consecutive bytes never share a checksum. */
  lemma BurstDetected(before: seq<Byte>, u: seq<Byte>, v: seq<Byte>, after: seq<Byte>)
    requires |u| == |v| <= 4 && u != v
    ensures Checksum(before + u + after) != Checksum(before + v + after)
  {
    hide Serial, Steps, Xor, Pack, Value;
    var c: bv32 := 0xffff_ffff;
    var r := Serial(c, before);
    if Checksum(before + u + after) == Checksum(before + v + after) {
      var x, y := Serial(c, before + u + after), Serial(c, before + v + after);
      ValueInjective(Xor(x, c), Xor(y, c));
      XorCommutes(x, c);
      XorCommutes(y, c);
      XorCancel(c, x, y);
      SerialAppend(c, before + u, after);
      SerialAppend(c, before + v, after);
      SerialInjective(Serial(c, before + u), Serial(c, before + v), after);
      SerialAppend(c, before, u);
      SerialAppend(c, before, v);
      SerialPacks(r, u);
      SerialPacks(r, v);
      StepsInjective(Xor(r, Pack(u)), Xor(r, Pack(v)), 8 * |u|);
      XorCancel(r, Pack(u), Pack(v));
      PackInjective(u, v);
      assert false;
    }
  }
}
