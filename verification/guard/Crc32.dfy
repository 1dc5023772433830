// CRC-32: the table-driven computation is the bit-serial one, and no single changed byte
// goes unnoticed.
module Crc32 {
  import opened ByteStrings

  type Word = bv32

  function X(a: Word, b: Word): Word { a ^ b }

  lemma XComm(a: Word, b: Word) ensures X(a, b) == X(b, a) {}

  lemma XCancel(a: Word, b: Word) ensures X(X(a, b), b) == a {}

  // ---------- The bit-serial register ----------

  // One step with the reflected polynomial of CRC-32.
  function Step(c: Word): Word {
    if c & 1 == 1 then (c >> 1) ^ 0xEDB88320 else c >> 1
  }

  function Steps(c: Word, n: nat): Word
    decreases n
  {
    if n == 0 then c else Steps(Step(c), n - 1)
  }

  // The register after the bytes, each XORed in and shifted through bit by bit.
  function Serial(c: Word, data: Bytes): Word
    decreases |data|
  {
    if data == [] then c else Serial(Steps(X(c, data[0] as Word), 8), data[1..])
  }

  // The CRC-32 of the bytes.
  function Crc(data: Bytes): Word { !Serial(0xFFFF_FFFF, data) }

  // ---------- The table ----------

  method Crc32Single(i: Word) returns (c: Word)
    ensures c == Steps(i, 8)
  {
    hide Step;
    c := i;
    var j := 0;
    while j < 8
      invariant 0 <= j <= 8
      invariant Steps(c, 8 - j) == Steps(i, 8)
    {
      ghost var was := c;
      c := if c & 1 == 1 then (c >> 1) ^ 0xEDB88320 else c >> 1;
      assert c == Step(was) by { StepIs(was); }
      j := j + 1;
    }
  }

  lemma StepIs(c: Word)
    ensures Step(c) == if c & 1 == 1 then (c >> 1) ^ 0xEDB88320 else c >> 1
  {}

  method GenerateCrc32Table() returns (table: array<Word>)
    ensures fresh(table) && table.Length == 256
    ensures forall i :: 0 <= i < 256 ==> table[i] == Steps(i as bv8 as Word, 8)
  {
    hide Steps;
    table := new Word[256];
    var i := 0;
    while i < 256
      invariant 0 <= i <= 256
      invariant forall k :: 0 <= k < i ==> table[k] == Steps(k as bv8 as Word, 8)
    {
      var c := Crc32Single(i as bv8 as Word);
      table[i] := c;
      i := i + 1;
    }
  }

  method ComputeCrc32(table: array<Word>, data: Bytes) returns (r: Word)
    requires table.Length == 256 && forall i :: 0 <= i < 256 ==> table[i] == Steps(i as bv8 as Word, 8)
    ensures r == Crc(data)
  {
    hide X; hide Steps; hide Low;
    var crc: Word := 0xFFFF_FFFF;
    var i := 0;
    while i < |data|
      invariant 0 <= i <= |data|
      invariant Serial(crc, data[i..]) == Serial(0xFFFF_FFFF, data)
    {
      var x := X(crc, data[i] as Word);
      assert data[i..][1..] == data[i + 1..];
      LookUp(crc, data[i]);
      crc := X(crc >> 8, table[Low(x) as int]);
      i := i + 1;
    }
    r := !crc;
  }

  function Low(x: Word): bv8 { (x & 0xFF) as bv8 }

  // One look-up does the work of eight steps.
  lemma LookUp(c: Word, b: bv8)
    ensures var x := X(c, b as Word);
            X(c >> 8, Steps(Low(x) as int as bv8 as Word, 8)) == Steps(x, 8)
  {
    hide Steps; hide X; hide Low;
    var x := X(c, b as Word);
    ShiftDropsByte(c, b);
    LowIndex(Low(x));
    LowByte(x);
    TableStep(x);
  }

  lemma ShiftDropsByte(c: Word, b: bv8)
    ensures X(c, b as Word) >> 8 == c >> 8
  {
    assert (c ^ (b as Word)) >> 8 == c >> 8;
  }

  lemma LowIndex(b: bv8)
    ensures b as int as bv8 == b
  {}

  lemma LowByte(x: Word)
    ensures Low(x) as Word == x & 0xFF
  {}

  lemma StepOfEven(h: Word, l: Word)
    requires h & 1 == 0
    ensures Step(h ^ l) == (h >> 1) ^ Step(l)
  {
    if l & 1 == 0 { StepOfEvenEven(h, l); } else { StepOfEvenOdd(h, l); }
  }

  lemma StepOfEvenEven(h: Word, l: Word)
    requires h & 1 == 0 && l & 1 == 0
    ensures Step(h ^ l) == (h >> 1) ^ Step(l)
  {}

  lemma StepOfEvenOdd(h: Word, l: Word)
    requires h & 1 == 0 && l & 1 == 1
    ensures Step(h ^ l) == (h >> 1) ^ Step(l)
  {}

  // n steps shift a word whose low n bits are zero through unchanged.
  ghost predicate LowZero(h: Word, n: nat) { n == 0 || (h & 1 == 0 && LowZero(h >> 1, n - 1)) }

  ghost function Shifted(h: Word, n: nat): Word { if n == 0 then h else Shifted(h >> 1, n - 1) }

  lemma {:induction false} StepsOfLowZero(h: Word, l: Word, n: nat)
    requires LowZero(h, n)
    ensures Steps(X(h, l), n) == X(Shifted(h, n), Steps(l, n))
    decreases n
  {
    hide Step;
    if n > 0 {
      StepOfEven(h, l);
      assert Step(X(h, l)) == X(h >> 1, Step(l));
      StepsOfLowZero(h >> 1, Step(l), n - 1);
    }
  }

  // Eight steps are one look-up and one shift by eight.
  lemma TableStep(x: Word)
    ensures X(x >> 8, Steps(x & 0xFF, 8)) == Steps(x, 8)
  {
    hide X; hide Step;
    var h := x & 0xFFFF_FF00;
    HighPart(x);
    StepsOfLowZero(h, x & 0xFF, 8);
  }

  lemma HighPart(x: Word)
    ensures var h := x & 0xFFFF_FF00; X(h, x & 0xFF) == x && LowZero(h, 8) && Shifted(h, 8) == x >> 8
  {
    var h0 := x & 0xFFFF_FF00;
    assert LowZero(h0, 8) && Shifted(h0, 8) == x >> 8 by { HighShifts(x); }
    Recombine(x);
  }

  lemma Recombine(x: Word)
    ensures X(x & 0xFFFF_FF00, x & 0xFF) == x
  {}

  lemma HighShifts(x: Word)
    ensures LowZero(x & 0xFFFF_FF00, 8) && Shifted(x & 0xFFFF_FF00, 8) == x >> 8
  {
    hide LowZero; hide Shifted;
    var h0 := x & 0xFFFF_FF00;
    var h1 := h0 >> 1; var h2 := h1 >> 1; var h3 := h2 >> 1; var h4 := h3 >> 1;
    var h5 := h4 >> 1; var h6 := h5 >> 1; var h7 := h6 >> 1; var h8 := h7 >> 1;
    NoneLow(h8);
    OneMoreLow(h7, 1); OneMoreLow(h6, 2); OneMoreLow(h5, 3); OneMoreLow(h4, 4);
    OneMoreLow(h3, 5); OneMoreLow(h2, 6); OneMoreLow(h1, 7); OneMoreLow(h0, 8);
  }

  lemma NoneLow(h: Word)
    ensures LowZero(h, 0) && Shifted(h, 0) == h
  {}

  lemma OneMoreLow(h: Word, n: nat)
    requires n > 0 && h & 1 == 0 && LowZero(h >> 1, n - 1)
    ensures LowZero(h, n) && Shifted(h, n) == Shifted(h >> 1, n - 1)
  {}

  // ---------- A changed byte changes the CRC ----------

  function Unstep(c: Word): Word {
    if c & 0x8000_0000 != 0 then ((c ^ 0xEDB88320) << 1) | 1 else c << 1
  }

  lemma UnstepStep(c: Word)
    ensures Unstep(Step(c)) == c
  {}

  lemma {:induction false} StepsInjective(a: Word, b: Word, n: nat)
    requires Steps(a, n) == Steps(b, n)
    ensures a == b
    decreases n
  {
    hide Step; hide Unstep;
    if n > 0 {
      StepsInjective(Step(a), Step(b), n - 1);
      UnstepStep(a);
      UnstepStep(b);
    }
  }

  lemma {:induction false} SerialInjective(a: Word, b: Word, data: Bytes)
    requires Serial(a, data) == Serial(b, data)
    ensures a == b
    decreases |data|
  {
    hide X; hide Steps;
    if data != [] {
      var w := data[0] as Word;
      SerialInjective(Steps(X(a, w), 8), Steps(X(b, w), 8), data[1..]);
      StepsInjective(X(a, w), X(b, w), 8);
      XCancel(a, w);
      XCancel(b, w);
    }
  }

  lemma {:induction false} SerialAppend(c: Word, p: Bytes, s: Bytes)
    ensures Serial(c, p + s) == Serial(Serial(c, p), s)
    decreases |p|
  {
    hide X; hide Steps;
    if p == [] {
      assert p + s == s;
    } else {
      assert (p + s)[1..] == p[1..] + s;
      SerialAppend(Steps(X(c, p[0] as Word), 8), p[1..], s);
    }
  }

  // Two strings that differ in exactly one byte never have the same CRC.
  lemma OneByteIsSeen(data: Bytes, k: nat, b: bv8)
    requires k < |data| && b != data[k]
    ensures Crc(data[k := b]) != Crc(data)
  {
    hide X; hide Steps; hide Serial;
    var p, s := data[..k], data[k + 1..];
    var c: Word := 0xFFFF_FFFF;
    assert data == p + ([data[k]] + s) && data[k := b] == p + ([b] + s);
    SerialAppend(c, p, [data[k]] + s);
    SerialAppend(c, p, [b] + s);
    TailsDiffer(Serial(c, p), data[k], b, s);
    Complement(Serial(c, data[k := b]), Serial(c, data));
  }

  lemma Complement(a: Word, b: Word)
    ensures !a == !b ==> a == b
  {}

  // The checks of two strings differ if their first bytes do and nothing else.
  lemma TailsDiffer(m: Word, a: bv8, b: bv8, s: Bytes)
    requires a != b
    ensures Serial(m, [a] + s) != Serial(m, [b] + s)
  {
    hide X; hide Steps;
    assert ([a] + s)[1..] == s && ([b] + s)[1..] == s;
    if Serial(m, [a] + s) == Serial(m, [b] + s) {
      SerialInjective(Steps(X(m, a as Word), 8), Steps(X(m, b as Word), 8), s);
      XByteInjective(m, a, b);
    }
  }

  lemma XByteInjective(m: Word, a: bv8, b: bv8)
    requires Steps(X(m, a as Word), 8) == Steps(X(m, b as Word), 8)
    ensures a == b
  {
    hide X; hide Steps;
    StepsInjective(X(m, a as Word), X(m, b as Word), 8);
    XComm(m, a as Word); XComm(m, b as Word);
    XCancel(a as Word, m); XCancel(b as Word, m);
    WordOfByte(a, b);
  }

  lemma WordOfByte(a: bv8, b: bv8)
    ensures a as Word == b as Word ==> a == b
  {}

  // ---------- The check value ----------

  lemma FirstThree()
    ensures Steps(X(0xFFFF_FFFF, 0x31), 8) == 0x7C23_1048
    ensures Steps(X(0x7C23_1048, 0x32), 8) == 0xB0AC_BB32
    ensures Steps(X(0xB0AC_BB32, 0x33), 8) == 0x77B7_9C2D
  {}

  lemma MiddleThree()
    ensures Steps(X(0x77B7_9C2D, 0x34), 8) == 0x641C_1F5C
    ensures Steps(X(0x641C_1F5C, 0x35), 8) == 0x340A_C5E3
    ensures Steps(X(0x340A_C5E3, 0x36), 8) == 0xF68D_2C9E
  {}

  lemma LastThree()
    ensures Steps(X(0xF68D_2C9E, 0x37), 8) == 0xAFFC_9660
    ensures Steps(X(0xAFFC_9660, 0x38), 8) == 0x651F_2550
    ensures Steps(X(0x651F_2550, 0x39), 8) == 0x340B_C6D9
  {}

  // The CRC-32 of the digits 1 to 9 in ASCII.
  lemma CheckValue()
    ensures Crc([0x31, 0x32, 0x33, 0x34, 0x35, 0x36, 0x37, 0x38, 0x39]) == 0xCBF4_3926
  {
    FirstThree();
    MiddleThree();
    LastThree();
    hide Steps; hide X;
  }
}
