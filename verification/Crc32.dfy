/** The CRC-32 of the frame check sequence of IEEE 802.3 (clause 3.2.9), table driven, its
    agreement with the bit-serial shift register, and its power to detect bursts. */
module Crc32 {
  import opened ShiftRegister
  import opened Types
  import Octets

  const SEED: bv32 := 0xFFFF_FFFF

  /** One turn of the reflected shift register with no message bit coming in. */
  function BitStep(c: bv32): bv32 {
    if c & 1 == 1 then 0xEDB88320 ^ (c >> 1) else c >> 1
  }

  /** The entry that the table holds at index `i`. */
  function TableEntry(i: bv8): bv32 {
    Steps(BitStep, i as bv32, 8)
  }

  /** The table-driven update of the register by one message byte. */
  function FeedBits(c: bv32, b: bv8): bv32 {
    Xor(TableEntry(((c ^ b as bv32) & 0xFF) as bv8), c >> 8)
  }

  function Feed(c: bv32, b: byte): bv32 {
    FeedBits(c, b as bv8)
  }

  /** The value that the register's last word is published as. */
  function Publish(c: bv32): bv32 {
    c ^ 0xFFFF_FFFF
  }

  function Checksum(data: seq<byte>): bv32 {
    Publish(Fold(Feed, SEED, data))
  }

  // ----- The independent reference: one message bit at a time, low bit first -----

  /** One turn that takes in the low bit of `m`: the bit that falls out, added to the message bit,
      decides whether the polynomial is subtracted. */
  function Turn(c: bv32, m: bv32): bv32 {
    if (c & 1) != (m & 1) then 0xEDB88320 ^ (c >> 1) else c >> 1
  }

  function Drop(m: bv32): bv32 {
    m >> 1
  }

  function SerialFeed(c: bv32, b: byte): bv32 {
    Serial(Turn, Drop, c, b as bv8 as bv32, 8)
  }

  // ----- The executable form -----

  ghost predicate IsTable(t: seq<bv32>) {
    |t| == 256 && forall i {:trigger t[i]} :: 0 <= i < 256 ==> t[i] == TableEntry(i as bv8)
  }

  method BuildTable() returns (table: array<bv32>)
    ensures fresh(table) && IsTable(table[..])
  {
    table := new bv32[256];
    for i := 0 to 256
      invariant forall j {:trigger table[j]} :: 0 <= j < i ==> table[j] == TableEntry(j as bv8)
    {
      var c := i as bv8 as bv32;
      for k := 0 to 8
        invariant Steps(BitStep, c, 8 - k) == TableEntry(i as bv8)
        invariant forall j {:trigger table[j]} :: 0 <= j < i ==> table[j] == TableEntry(j as bv8)
      {
        c := if c & 1 == 1 then 0xEDB88320 ^ (c >> 1) else c >> 1;
      }
      table[i] := c;
    }
  }

  method FeedByTable(table: array<bv32>, c: bv32, b: byte) returns (next: bv32)
    requires IsTable(table[..])
    ensures next == Feed(c, b)
  {
    var index := ((c ^ b as bv8 as bv32) & 0xFF) as bv8;
    Octets.NumberKeepsBits(index);
    var entry := table[index as int];
    assert entry == table[..][index as int];
    next := entry ^ (c >> 8);
  }

  method RunRegister(data: seq<byte>) returns (c: bv32)
    ensures c == Fold(Feed, SEED, data)
  {
    var table := BuildTable();
    c := SEED;
    for i := 0 to |data|
      invariant IsTable(table[..])
      invariant c == Fold(Feed, SEED, data[..i])
    {
      FoldNext(Feed, SEED, data, i);
      c := FeedByTable(table, c, data[i]);
    }
    assert data[..|data|] == data;
  }

  /** The table-driven loop computes the bit-serial CRC of every message. */
  method Compute(data: seq<byte>) returns (crc: bv32)
    ensures crc == Checksum(data)
    ensures crc == Publish(Fold(SerialFeed, SEED, data))
  {
    var c := RunRegister(data);
    TableDrivenIsBitSerial(SEED, data);
    crc := Publish(c);
  }

  // ----- Bit-level facts -----

  function Xor(a: bv32, b: bv32): bv32 {
    a ^ b
  }

  lemma EvenStep(a: bv32)
    requires a & 1 == 0
    ensures BitStep(a) == a >> 1
  {}

  lemma OddStep(a: bv32)
    requires a & 1 != 0
    ensures BitStep(a) == 0xEDB88320 ^ (a >> 1)
  {
    assert a & 1 == 1;
  }

  lemma EvenEven(a: bv32, b: bv32)
    requires a & 1 == 0 && b & 1 == 0
    ensures BitStep(a ^ b) == BitStep(a) ^ BitStep(b)
  {
    EvenStep(a);
    EvenStep(b);
    assert (a ^ b) & 1 == 0;
    EvenStep(a ^ b);
  }

  lemma EvenOdd(a: bv32, b: bv32)
    requires a & 1 == 0 && b & 1 != 0
    ensures BitStep(a ^ b) == BitStep(a) ^ BitStep(b)
  {
    EvenStep(a);
    OddStep(b);
    assert (a ^ b) & 1 != 0;
    OddStep(a ^ b);
  }

  lemma OddOdd(a: bv32, b: bv32)
    requires a & 1 != 0 && b & 1 != 0
    ensures BitStep(a ^ b) == BitStep(a) ^ BitStep(b)
  {
    OddStep(a);
    OddStep(b);
    assert (a ^ b) & 1 == 0;
    EvenStep(a ^ b);
  }

  lemma XorCommutes(a: bv32, b: bv32)
    ensures a ^ b == b ^ a
  {}

  /** The register is linear over the field of two elements. */
  lemma StepXor(a: bv32, b: bv32)
    ensures BitStep(a ^ b) == BitStep(a) ^ BitStep(b)
  {
    if a & 1 == 0 {
      if b & 1 == 0 {
        EvenEven(a, b);
      } else {
        EvenOdd(a, b);
      }
    } else if b & 1 == 0 {
      EvenOdd(b, a);
      XorCommutes(a, b);
      XorCommutes(BitStep(a), BitStep(b));
    } else {
      OddOdd(a, b);
    }
  }

  /** Turning loses nothing: the top coefficient of the polynomial keeps the bit that fell out. */
  lemma StepInjective(a: bv32, b: bv32)
    requires BitStep(a) == BitStep(b)
    ensures a == b
  {}

  lemma XorCancels(a: bv32, b: bv32, x: bv32)
    ensures a ^ x == b ^ x ==> a == b
  {}

  lemma {:induction false} Chain(x: seq<bv32>, i: nat)
    requires |x| == 9 && i <= 8
    requires forall j {:trigger x[j]} :: 0 <= j < 8 ==> BitStep(x[j]) == x[j + 1]
    ensures Steps(BitStep, x[i], 8 - i) == x[8]
    decreases 8 - i
  {
    if i < 8 {
      Chain(x, i + 1);
    }
  }

  lemma ShiftChain(x: bv32)
    requires x & 0xFF == 0
    ensures BitStep(x) == x >> 1 && BitStep(x >> 1) == x >> 2 && BitStep(x >> 2) == x >> 3
    ensures BitStep(x >> 3) == x >> 4 && BitStep(x >> 4) == x >> 5 && BitStep(x >> 5) == x >> 6
    ensures BitStep(x >> 6) == x >> 7 && BitStep(x >> 7) == x >> 8
  {}

  /** Zero bits that reach the low end only shift the register. */
  lemma ClearByteSteps(x: bv32)
    requires x & 0xFF == 0
    ensures Steps(BitStep, x, 8) == x >> 8
  {
    ShiftChain(x);
    Chain([x, x >> 1, x >> 2, x >> 3, x >> 4, x >> 5, x >> 6, x >> 7, x >> 8], 0);
  }

  lemma SplitByte(x: bv32)
    ensures x == (x & 0xFF) ^ (x & 0xFFFF_FF00)
    ensures (x & 0xFFFF_FF00) & 0xFF == 0
    ensures (x & 0xFFFF_FF00) >> 8 == x >> 8
    ensures ((x & 0xFF) as bv8) as bv32 == x & 0xFF
  {}

  lemma ByteAbsorbed(c: bv32, b: bv8)
    ensures (c ^ b as bv32) >> 8 == c >> 8
  {}

  lemma BitStepAdditive()
    ensures Additive(Xor, BitStep)
  {
    forall a, b ensures BitStep(Xor(a, b)) == Xor(BitStep(a), BitStep(b)) {
      StepXor(a, b);
    }
  }

  lemma EightStepsSplit(x: bv32)
    ensures Steps(BitStep, x, 8) == Xor(Steps(BitStep, x & 0xFF, 8), x >> 8)
  {
    SplitByte(x);
    BitStepAdditive();
    StepsXor(Xor, BitStep, x & 0xFF, x & 0xFFFF_FF00, 8);
    ClearByteSteps(x & 0xFFFF_FF00);
  }

  /** The table looks eight register turns ahead at once. */
  lemma FeedIsEightSteps(c: bv32, b: bv8)
    ensures FeedBits(c, b) == Steps(BitStep, Xor(c, b as bv32), 8)
  {
    EightStepsSplit(c ^ b as bv32);
    SplitByte(c ^ b as bv32);
    ByteAbsorbed(c, b);
  }

  // ----- Agreement with the bit-serial register -----

  lemma SerialTurn(c: bv32, m: bv32)
    ensures Xor(Turn(c, m), Drop(m)) == BitStep(Xor(c, m))
  {
    LowBits(c, m);
    if c & 1 == m & 1 {
      EvenStep(c ^ m);
    } else {
      OddStep(c ^ m);
    }
  }

  lemma LowBits(c: bv32, m: bv32)
    ensures c & 1 == m & 1 ==> (c ^ m) & 1 == 0 && (c >> 1) ^ (m >> 1) == (c ^ m) >> 1
    ensures c & 1 != m & 1 ==>
      (c ^ m) & 1 != 0 && (0xEDB88320 ^ (c >> 1)) ^ (m >> 1) == 0xEDB88320 ^ ((c ^ m) >> 1)
  {}

  lemma {:induction false} DropChain(x: seq<bv32>, i: nat)
    requires |x| == 9 && i <= 8
    requires forall j {:trigger x[j]} :: 0 <= j < 8 ==> Drop(x[j]) == x[j + 1]
    ensures Steps(Drop, x[i], 8 - i) == x[8]
    decreases 8 - i
  {
    if i < 8 {
      DropChain(x, i + 1);
    }
  }

  lemma DropShifts(x: bv32)
    ensures Drop(x) == x >> 1 && Drop(x >> 1) == x >> 2 && Drop(x >> 2) == x >> 3
    ensures Drop(x >> 3) == x >> 4 && Drop(x >> 4) == x >> 5 && Drop(x >> 5) == x >> 6
    ensures Drop(x >> 6) == x >> 7 && Drop(x >> 7) == x >> 8
  {}

  lemma ByteShiftsOut(b: bv8)
    ensures Steps(Drop, b as bv32, 8) == 0
  {
    var x := b as bv32;
    DropShifts(x);
    DropChain([x, x >> 1, x >> 2, x >> 3, x >> 4, x >> 5, x >> 6, x >> 7, x >> 8], 0);
    ByteHigh(b);
  }

  lemma ByteHigh(b: bv8)
    ensures (b as bv32) >> 8 == 0
  {}

  lemma XorZero(x: bv32)
    ensures Xor(x, 0) == x
  {}

  lemma FeedIsSerial(c: bv32, b: byte)
    ensures Feed(c, b) == SerialFeed(c, b)
  {
    FeedIsEightSteps(c, b as bv8);
    forall c, m ensures Xor(Turn(c, m), Drop(m)) == BitStep(Xor(c, m)) {
      SerialTurn(c, m);
    }
    SerialRunsAhead(Xor, BitStep, Turn, Drop, c, b as bv8 as bv32, 8);
    ByteShiftsOut(b as bv8);
    XorZero(SerialFeed(c, b));
  }

  /** On every message and from every register, the table-driven form is the bit-serial one. */
  lemma {:induction false} TableDrivenIsBitSerial(c: bv32, data: seq<byte>)
    ensures Fold(Feed, c, data) == Fold(SerialFeed, c, data)
    decreases |data|
  {
    if data != [] {
      FeedIsSerial(c, data[0]);
      TableDrivenIsBitSerial(Feed(c, data[0]), data[1..]);
    }
  }

  // ----- Error detection -----

  /** Byte `b` at byte position `i` of a word. */
  function At(b: byte, i: nat): bv32 {
    BitsAt(b as bv8, i)
  }

  function BitsAt(b: bv8, i: nat): bv32 {
    if i == 0 then b as bv32
    else if i == 1 then b as bv32 << 8
    else if i == 2 then b as bv32 << 16
    else b as bv32 << 24
  }

  /** Four bytes as the little-endian word that the file and frame footers hold. */
  function Word(d: seq<byte>): bv32
    requires |d| == 4
  {
    WordFrom(d[0] as bv8, d[1] as bv8, d[2] as bv8, d[3] as bv8)
  }

  function WordFrom(p: bv8, q: bv8, r: bv8, s: bv8): bv32 {
    p as bv32 | (q as bv32 << 8) | (r as bv32 << 16) | (s as bv32 << 24)
  }

  function WordOf(d: seq<byte>): bv32 {
    if |d| == 4 then Word(d) else 0
  }

  function WordBytes(w: bv32): (d: seq<byte>)
    ensures |d| == 4
  {
    [((w & 0xFF) as bv8) as int, (((w >> 8) & 0xFF) as bv8) as int,
     (((w >> 16) & 0xFF) as bv8) as int, (((w >> 24) & 0xFF) as bv8) as int]
  }

  lemma WordOfBytes(w: bv32)
    ensures Word(WordBytes(w)) == w
  {
    var p, q, r, s := (w & 0xFF) as bv8, ((w >> 8) & 0xFF) as bv8, ((w >> 16) & 0xFF) as bv8, ((w >> 24) & 0xFF) as bv8;
    Octets.NumberKeepsBits(p);
    Octets.NumberKeepsBits(q);
    Octets.NumberKeepsBits(r);
    Octets.NumberKeepsBits(s);
    DigitsMakeWord(w);
  }

  lemma DigitsMakeWord(w: bv32)
    ensures WordFrom((w & 0xFF) as bv8, ((w >> 8) & 0xFF) as bv8, ((w >> 16) & 0xFF) as bv8, ((w >> 24) & 0xFF) as bv8) == w
  {}

  lemma ByteShifts(b: bv8)
    ensures BitsAt(b, 1) & 0xFF == 0 && BitsAt(b, 1) >> 8 == BitsAt(b, 0)
    ensures BitsAt(b, 2) & 0xFF == 0 && BitsAt(b, 2) >> 8 == BitsAt(b, 1)
    ensures BitsAt(b, 3) & 0xFF == 0 && BitsAt(b, 3) >> 8 == BitsAt(b, 2)
  {}

  lemma BytesComeDown()
    ensures BytesDescend(BitStep, At)
  {
    forall b: byte, i: nat | i < 3 ensures Steps(BitStep, At(b, i + 1), 8) == At(b, i) {
      ByteShifts(b as bv8);
      ClearByteSteps(BitsAt(b as bv8, i + 1));
    }
  }

  lemma AbsorbsDigits(c: bv32, p: bv8, q: bv8, r: bv8, s: bv8)
    ensures Xor(Xor(Xor(Xor(c, BitsAt(p, 0)), BitsAt(q, 1)), BitsAt(r, 2)), BitsAt(s, 3)) == Xor(c, WordFrom(p, q, r, s))
  {
    DisjointBytes(p, q, r, s);
    XorFour(c, BitsAt(p, 0), BitsAt(q, 1), BitsAt(r, 2), BitsAt(s, 3), WordFrom(p, q, r, s));
  }

  lemma DisjointBytes(p: bv8, q: bv8, r: bv8, s: bv8)
    ensures WordFrom(p, q, r, s) == Xor(Xor(Xor(BitsAt(p, 0), BitsAt(q, 1)), BitsAt(r, 2)), BitsAt(s, 3))
  {}

  lemma XorFour(c: bv32, x: bv32, y: bv32, z: bv32, w: bv32, sum: bv32)
    requires sum == Xor(Xor(Xor(x, y), z), w)
    ensures Xor(Xor(Xor(Xor(c, x), y), z), w) == Xor(c, sum)
  {
    XorAssociates(c, x, y);
    XorAssociates(c, Xor(x, y), z);
    XorAssociates(c, Xor(Xor(x, y), z), w);
  }

  lemma XorAssociates(a: bv32, b: bv32, c: bv32)
    ensures Xor(Xor(a, b), c) == Xor(a, Xor(b, c))
  {}

  lemma AbsorbsWord(c: bv32, d: seq<byte>)
    requires |d| == 4
    ensures Absorb(Xor, At, c, d) == Xor(c, Word(d))
  {
    AbsorbsDigits(c, d[0] as bv8, d[1] as bv8, d[2] as bv8, d[3] as bv8);
  }

  lemma WordDigits(p: bv8, q: bv8, r: bv8, s: bv8)
    ensures var w := WordFrom(p, q, r, s);
      && (w & 0xFF) as bv8 == p && ((w >> 8) & 0xFF) as bv8 == q
      && ((w >> 16) & 0xFF) as bv8 == r && ((w >> 24) & 0xFF) as bv8 == s
  {}

  lemma BytesOfWord(d: seq<byte>)
    requires |d| == 4
    ensures WordBytes(Word(d)) == d
  {
    WordDigits(d[0] as bv8, d[1] as bv8, d[2] as bv8, d[3] as bv8);
    Octets.BitsKeepNumber(d[0]);
    Octets.BitsKeepNumber(d[1]);
    Octets.BitsKeepNumber(d[2]);
    Octets.BitsKeepNumber(d[3]);
  }

  lemma XorSelf(c: bv32, w: bv32)
    ensures c ^ (c ^ w) == w
  {}

  lemma WordsTellApart()
    ensures WordsDistinct(Xor, At)
  {
    forall c, d: seq<byte>, e: seq<byte>
      | |d| == |e| == 4 && Absorb(Xor, At, c, d) == Absorb(Xor, At, c, e)
      ensures d == e
    {
      EqualWords(c, d, e);
    }
  }

  lemma EqualWords(c: bv32, d: seq<byte>, e: seq<byte>)
    requires |d| == |e| == 4 && Absorb(Xor, At, c, d) == Absorb(Xor, At, c, e)
    ensures d == e
  {
    AbsorbsWord(c, d);
    AbsorbsWord(c, e);
    XorEqual(c, Word(d), Word(e));
    BytesOfWord(d);
    BytesOfWord(e);
  }

  lemma XorEqual(c: bv32, v: bv32, w: bv32)
    requires Xor(c, v) == Xor(c, w)
    ensures v == w
  {
    XorSelf(c, v);
    XorSelf(c, w);
  }

  /** The CRC-32 register meets the three facts that error detection rests on. */
  lemma IsRegister()
    ensures Register(Xor, BitStep, At, Feed)
  {
    BitStepAdditive();
    forall a, b | BitStep(a) == BitStep(b) ensures a == b {
      StepInjective(a, b);
    }
    forall a, b, x | Xor(a, x) == Xor(b, x) ensures a == b {
      XorCancels(a, b, x);
    }
    forall c, b: byte ensures Feed(c, b) == Steps(BitStep, Xor(c, At(b, 0)), 8) {
      FeedIsEightSteps(c, b as bv8);
    }
    BytesComeDown();
    WordsTellApart();
  }

  /** Two different messages of one length that differ only inside four consecutive bytes never
      share a checksum. */
  lemma BurstDetected(a: seq<byte>, b: seq<byte>, start: nat, width: nat)
    requires BurstApart(a, b, start, width) && a != b
    ensures Checksum(a) != Checksum(b)
  {
    if Checksum(a) == Checksum(b) {
      XorCancels(Fold(Feed, SEED, a), Fold(Feed, SEED, b), 0xFFFF_FFFF);
      IsRegister();
      BurstChangesRegister(Xor, BitStep, At, Feed, SEED, a, b, start, width);
    }
  }

  // ----- Which checksum it is -----

  /** The register starts at a word that zero bytes do not leave alone: no message has the checksum of
      the same message with a zero byte in front. */
  lemma LeadingZeroCounts(data: seq<byte>)
    ensures Checksum([0] + data) != Checksum(data)
  {
    IsRegister();
    var c := Feed(SEED, 0);
    FoldConcat(Feed, SEED, [0], data);
    assert Fold(Feed, SEED, [0]) == c;
    ZeroByteTurns();
    if Checksum([0] + data) == Checksum(data) {
      XorCancels(Fold(Feed, c, data), Fold(Feed, SEED, data), 0xFFFF_FFFF);
      FoldInjective(Xor, BitStep, At, Feed, c, SEED, data);
    }
  }

  /** Eight turns, given one by one. */
  lemma EightTurns(c: bv32, b: bv8, x1: bv32, x2: bv32, x3: bv32, x4: bv32, x5: bv32, x6: bv32, x7: bv32, x8: bv32)
    requires BitStep(c ^ b as bv32) == x1 && BitStep(x1) == x2 && BitStep(x2) == x3 && BitStep(x3) == x4
    requires BitStep(x4) == x5 && BitStep(x5) == x6 && BitStep(x6) == x7 && BitStep(x7) == x8
    ensures FeedBits(c, b) == x8
  {
    FeedIsEightSteps(c, b);
    Chain([c ^ b as bv32, x1, x2, x3, x4, x5, x6, x7, x8], 0);
  }

  lemma CheckDigits123()
    ensures FeedBits(0xFFFF_FFFF, 49) == 0x7C23_1048
    ensures FeedBits(0x7C23_1048, 50) == 0xB0AC_BB32
    ensures FeedBits(0xB0AC_BB32, 51) == 0x77B7_9C2D
  {
    EightTurns(0xFFFF_FFFF, 49, 0x7FFF_FFE7, 0xD247_7CD3, 0x849B_3D49, 0xAFF5_1D84,
               0x57FA_8EC2, 0x2BFD_4761, 0xF846_2090, 0x7C23_1048);
    EightTurns(0x7C23_1048, 50, 0x3E11_883D, 0xF2B0_473E, 0x7958_239F, 0xD114_92EF,
               0x8532_CA57, 0xAF21_E60B, 0xBA28_7025, 0xB0AC_BB32);
    EightTurns(0xB0AC_BB32, 51, 0xB5EE_DEA0, 0x5AF7_6F50, 0x2D7B_B7A8, 0x16BD_DBD4,
               0x0B5E_EDEA, 0x05AF_76F5, 0xEF6F_385A, 0x77B7_9C2D);
  }

  lemma CheckDigits456()
    ensures FeedBits(0x77B7_9C2D, 52) == 0x641C_1F5C
    ensures FeedBits(0x641C_1F5C, 53) == 0x340A_C5E3
    ensures FeedBits(0x340A_C5E3, 54) == 0xF68D_2C9E
  {
    EightTurns(0x77B7_9C2D, 52, 0xD663_4D2C, 0x6B31_A696, 0x3598_D34B, 0xF774_EA85,
               0x9602_F662, 0x4B01_7B31, 0xC838_3EB8, 0x641C_1F5C);
    EightTurns(0x641C_1F5C, 53, 0xDFB6_8C94, 0x6FDB_464A, 0x37ED_A325, 0xF64E_52B2,
               0x7B27_2959, 0xD02B_178C, 0x6815_8BC6, 0x340A_C5E3);
    EightTurns(0x340A_C5E3, 54, 0xF7BD_E1CA, 0x7BDE_F0E5, 0xD057_FB52, 0x682B_FDA9,
               0xD9AD_7DF4, 0x6CD6_BEFA, 0x366B_5F7D, 0xF68D_2C9E);
  }

  lemma CheckDigits789()
    ensures FeedBits(0xF68D_2C9E, 55) == 0xAFFC_9660
    ensures FeedBits(0xAFFC_9660, 56) == 0x651F_2550
    ensures FeedBits(0x651F_2550, 57) == 0x340B_C6D9
  {
    EightTurns(0xF68D_2C9E, 55, 0x96FE_1574, 0x4B7F_0ABA, 0x25BF_855D, 0xFF67_418E,
               0x7FB3_A0C7, 0xD261_5343, 0x8488_2A81, 0xAFFC_9660);
    EightTurns(0xAFFC_9660, 56, 0x57FE_4B2C, 0x2BFF_2596, 0x15FF_92CB, 0xE747_4A45,
               0x9E1B_2602, 0x4F0D_9301, 0xCA3E_4AA0, 0x651F_2550);
    EightTurns(0x651F_2550, 57, 0xDF37_1194, 0x6F9B_88CA, 0x37CD_C465, 0xF65E_6112,
               0x7B2F_3089, 0xD02F_1B64, 0x6817_8DB2, 0x340B_C6D9);
  }

  lemma ZeroByteTurns()
    ensures Feed(SEED, 0) == 0x2DFD_1072
  {
    EightTurns(0xFFFF_FFFF, 0, 0x9247_7CDF, 0xA49B_3D4F, 0xBFF5_1D87, 0xB242_0DE3,
               0xB499_85D1, 0xB7F4_41C8, 0x5BFA_20E4, 0x2DFD_1072);
  }

  lemma FoldThree(c: bv32, x: byte, y: byte, z: byte, rest: seq<byte>)
    ensures Fold(Feed, c, [x, y, z] + rest) == Fold(Feed, Feed(Feed(Feed(c, x), y), z), rest)
  {
    var s, t, u := [x, y, z] + rest, [y, z] + rest, [z] + rest;
    assert s[1..] == t && t[1..] == u && u[1..] == rest;
    assert Fold(Feed, c, s) == Fold(Feed, Feed(c, x), t);
    assert Fold(Feed, Feed(c, x), t) == Fold(Feed, Feed(Feed(c, x), y), u);
  }

  /** The published check value: the checksum of the nine digits "123456789". It fixes the start value,
      the polynomial, the order of the bits and the final complement. */
  lemma CheckValue()
    ensures Checksum([49, 50, 51, 52, 53, 54, 55, 56, 57]) == 0xCBF4_3926
    ensures Checksum([]) == 0
  {
    CheckDigits123();
    CheckDigits456();
    CheckDigits789();
    assert [49, 50, 51] + ([52, 53, 54] + ([55, 56, 57] + [])) == [49, 50, 51, 52, 53, 54, 55, 56, 57];
    FoldThree(SEED, 49, 50, 51, [52, 53, 54] + ([55, 56, 57] + []));
    FoldThree(0x77B7_9C2D, 52, 53, 54, [55, 56, 57] + []);
    FoldThree(0xF68D_2C9E, 55, 56, 57, []);
  }

  // ----- Messages that carry their own checksum as a footer -----

  /** The test that frames and state files apply to their last four bytes. */
  predicate Sealed(image: seq<byte>) {
    |image| >= 4 && Word(image[|image| - 4..]) == Checksum(image[..|image| - 4])
  }

  /** A message with its checksum behind it. */
  function Seal(body: seq<byte>): (image: seq<byte>)
    ensures |image| == |body| + 4
  {
    body + WordBytes(Checksum(body))
  }

  lemma SealSeals(body: seq<byte>)
    ensures Sealed(Seal(body))
  {
    var image := Seal(body);
    assert image[..|body|] == body && image[|body|..] == WordBytes(Checksum(body));
    WordOfBytes(Checksum(body));
  }

  lemma PublishedLeavesResidue(c: bv32)
    ensures Xor(c, Publish(c)) == 0xFFFF_FFFF
  {
    XorSelf(c, 0xFFFF_FFFF);
  }

  lemma ResidueIsPublished(c: bv32, w: bv32)
    requires c ^ w == 0xFFFF_FFFF
    ensures w == Publish(c)
  {
    XorSelf(c, w);
  }

  lemma PublishesResidue()
    ensures Spells(Xor, At, WordOf) && Publishes(Xor, Publish, 0xFFFF_FFFF)
  {
    forall c, d: seq<byte> | |d| == 4 ensures Absorb(Xor, At, c, d) == Xor(c, WordOf(d)) {
      AbsorbsWord(c, d);
    }
    forall c ensures Xor(c, Publish(c)) == 0xFFFF_FFFF {
      PublishedLeavesResidue(c);
    }
    forall c, w | Xor(c, w) == 0xFFFF_FFFF ensures w == Publish(c) {
      ResidueIsPublished(c, w);
    }
  }

  /** No change confined to four consecutive bytes of a sealed image leaves it sealed, wherever the
      change falls: in the body, in the footer or across their border. */
  lemma SealBreaks(a: seq<byte>, b: seq<byte>, start: nat, width: nat)
    requires Sealed(a) && BurstApart(a, b, start, width) && a != b
    ensures !Sealed(b)
  {
    IsRegister();
    PublishesResidue();
    ShiftRegister.SealBreaks(Xor, BitStep, At, Feed, WordOf, Publish, 0xFFFF_FFFF, SEED, a, b, start, width);
  }
}
