// The 16-bit header checksum and the 32-bit frame checksum of the serial protocol: the
// table-driven updates, the loops that use them, and what the two checksums detect.
module Crc {
  import opened CrcTables
  import opened Checksum

  const CRC_INIT: bv16 := 0x3AA3

  // Exclusive or under a name of its own, so that equal operands give equal terms.
  function Xor16(a: bv16, b: bv16): bv16 {
    a ^ b
  }

  function Xor32(a: bv32, b: bv32): bv32 {
    a ^ b
  }

  // A word as it lies in memory: least significant byte first.
  function Le16(w: bv16): (s: seq<Byte>)
    ensures |s| == 2
  {
    [(w & 0xff) as bv8, (w >> 8) as bv8]
  }

  function Le32(w: bv32): (s: seq<Byte>)
    ensures |s| == 4
  {
    [(w & 0xff) as bv8, ((w >> 8) & 0xff) as bv8, ((w >> 16) & 0xff) as bv8, (w >> 24) as bv8]
  }

  // A byte put k bytes up in a word.
  function Place16(b: Byte, k: nat): bv16 {
    if k == 0 then b as bv16 else if k == 1 then (b as bv16) << 8 else 0
  }

  function Place32(b: Byte, k: nat): bv32 {
    if k == 0 then b as bv32 else if k == 1 then (b as bv32) << 8
    else if k == 2 then (b as bv32) << 16 else if k == 3 then (b as bv32) << 24 else 0
  }

  // ------------------------------------------------------------ 16 bits

  function Reg16(): Register<bv16> {
    Register(2, 0, Byte16, Xor16, Place16, Le16)
  }

  // The checksum of a message, bit by bit.
  function Crc16(data: seq<Byte>): bv16 {
    Feed(Reg16(), CRC_INIT, data)
  }

  function Update16(crc: bv16, ch: Byte): bv16 {
    Xor16(crc >> 8, Table16((Xor16(crc, ch as bv16) & 0xff) as bv8))
  }

  lemma BothOdd16(a: bv16, b: bv16)
    requires a & 1 == 1 && b & 1 == 1
    ensures Step16(Xor16(a, b)) == Xor16(Step16(a), Step16(b))
  {}

  lemma OneOdd16(a: bv16, b: bv16)
    requires a & 1 == 1 && b & 1 == 0
    ensures Step16(Xor16(a, b)) == Xor16(Step16(a), Step16(b))
  {}

  lemma NoneOdd16(a: bv16, b: bv16)
    requires a & 1 == 0 && b & 1 == 0
    ensures Step16(Xor16(a, b)) == Xor16(Step16(a), Step16(b))
  {}

  lemma Commute16(a: bv16, b: bv16)
    ensures Xor16(a, b) == Xor16(b, a)
  {}

  lemma LowBit16(a: bv16)
    ensures a & 1 == 0 || a & 1 == 1
  {}

  lemma Step16Linear(a: bv16, b: bv16)
    ensures Step16(Xor16(a, b)) == Xor16(Step16(a), Step16(b))
  {
    LowBit16(a);
    LowBit16(b);
    if a & 1 == 1 {
      if b & 1 == 1 { BothOdd16(a, b); } else { OneOdd16(a, b); }
    } else if b & 1 == 1 {
      OneOdd16(b, a);
      Commute16(a, b);
      Commute16(Step16(a), Step16(b));
    } else {
      NoneOdd16(a, b);
    }
  }

  lemma {:induction false} Steps16Linear(n: nat, a: bv16, b: bv16)
    ensures Steps16(n, Xor16(a, b)) == Xor16(Steps16(n, a), Steps16(n, b))
  {
    if n > 0 {
      Step16Linear(a, b);
      Steps16Linear(n - 1, Step16(a), Step16(b));
    }
  }

  // The polynomial has its top bit set, so a step can be undone.
  lemma Step16Injective(a: bv16, b: bv16)
    requires Step16(a) == Step16(b)
    ensures a == b
  {}

  lemma {:induction false} Steps16Injective(n: nat, a: bv16, b: bv16)
    requires Steps16(n, a) == Steps16(n, b)
    ensures a == b
  {
    if n > 0 {
      Steps16Injective(n - 1, Step16(a), Step16(b));
      Step16Injective(a, b);
    }
  }

  // Eight steps of a word whose low byte is clear only shift it.
  lemma Byte16OfHigh(a: bv16)
    requires a & 0xff == 0
    ensures Byte16(a) == a >> 8
  {
    Eight16(a);
  }

  lemma Split16(crc: bv16, x: bv16, ch: Byte)
    requires x == Xor16(crc, ch as bv16)
    ensures x == Xor16(x & 0xff, x & 0xff00) && (x & 0xff00) & 0xff == 0 && (x & 0xff00) >> 8 == crc >> 8
    ensures ((x & 0xff) as bv8) as bv16 == x & 0xff
  {}

  lemma Byte16Linear(a: bv16, b: bv16)
    ensures Byte16(Xor16(a, b)) == Xor16(Byte16(a), Byte16(b))
  {
    Steps16Linear(BitsPerByte(), a, b);
  }

  // The byte that goes out, through the table, and the rest, only shifted.
  lemma Byte16OfParts(x: bv16, low: bv16, high: bv16, rest: bv16)
    requires x == Xor16(low, high) && high & 0xff == 0 && high >> 8 == rest
    ensures Byte16(x) == Xor16(Byte16(low), rest)
  {
    Byte16Linear(low, high);
    Byte16OfHigh(high);
  }

  lemma Update16At(crc: bv16, ch: Byte, x: bv16)
    requires x == Xor16(crc, ch as bv16)
    ensures Update16(crc, ch) == Xor16(crc >> 8, Table16((x & 0xff) as bv8))
  {
    hide Table16, Xor16;
  }

  /** The table-driven update is eight bit-by-bit steps on the register with the byte mixed in. */
  lemma Update16IsBitwise(crc: bv16, ch: Byte)
    ensures Update16(crc, ch) == Byte16(Xor16(crc, ch as bv16))
  {
    hide Update16, Table16, Byte16, Steps16, Step16, Xor16;
    var x := Xor16(crc, ch as bv16);
    Update16At(crc, ch, x);
    Split16(crc, x, ch);
    Byte16OfParts(x, x & 0xff, x & 0xff00, crc >> 8);
    Table16IsEightSteps((x & 0xff) as bv8);
    Commute16(crc >> 8, Byte16(x & 0xff));
  }

  method CRC16Calc(data: seq<Byte>) returns (crc: bv16)
    ensures crc == Crc16(data)
  {
    crc := CRC_INIT;
    for i := 0 to |data|
      invariant crc == Crc16(data[..i])
    {
      assert data[..i + 1][..i] == data[..i];
      Update16IsBitwise(crc, data[i]);
      crc := Update16(crc, data[i]);
    }
    assert data[..|data|] == data;
  }

  lemma Shift16Laws()
    ensures ShiftLaws(Reg16())
  {
    var r := Reg16();
    forall a, b ensures r.shift(r.mix(a, b)) == r.mix(r.shift(a), r.shift(b)) {
      Byte16Linear(a, b);
    }
    forall a, b | r.shift(a) == r.shift(b) ensures a == b {
      Steps16Injective(BitsPerByte(), a, b);
    }
    Byte16OfHigh(0);
    forall b, k: nat | 0 < k < r.width ensures r.shift(r.place(b, k)) == r.place(b, k - 1) {
      Placed16(b, k);
    }
  }

  lemma XorCancel16(c: bv16, a: bv16, b: bv16)
    requires Xor16(a, c) == Xor16(b, c)
    ensures a == b
  {}

  lemma Cancel16Laws()
    ensures CancelLaws(Reg16())
  {
    var r := Reg16();
    forall c, a, b | r.mix(a, c) == r.mix(b, c) ensures a == b {
      XorCancel16(c, a, b);
    }
    forall c, a, b | r.mix(c, a) == r.mix(c, b) ensures a == b {
      Commute16(c, a);
      Commute16(c, b);
      XorCancel16(c, a, b);
    }
  }

  lemma XorAssociates16(a: bv16, b: bv16, c: bv16)
    ensures Xor16(Xor16(a, b), c) == Xor16(a, Xor16(b, c))
  {}

  lemma Group16Laws()
    ensures GroupLaws(Reg16())
  {
    var r := Reg16();
    forall a, b, c ensures r.mix(r.mix(a, b), c) == r.mix(a, r.mix(b, c)) {
      XorAssociates16(a, b, c);
    }
  }

  lemma PlaceBits16(b: Byte)
    ensures ((b as bv16) << 8) & 0xff == 0 && ((b as bv16) << 8) >> 8 == b as bv16
  {}

  lemma Placed16(b: Byte, k: nat)
    requires 0 < k < 2
    ensures Byte16(Place16(b, k)) == Place16(b, k - 1)
  {
    PlaceBits16(b);
    Byte16OfHigh(Place16(b, k));
  }

  lemma WordOf16(s: seq<Byte>)
    requires |s| == 2
    ensures Word(Reg16(), s) == Join16(s[0], s[1])
  {
    var r := Reg16();
    assert s[..1][..0] == [] && s[..1][0] == s[0];
    assert Mixed(r, 0, s[..1]) == r.mix(0, r.place(s[0], 0));
  }

  function Join16(b0: Byte, b1: Byte): bv16 {
    Xor16(Xor16(0, Place16(b0, 0)), Place16(b1, 1))
  }

  lemma Whole16(w: bv16)
    ensures Join16(Le16(w)[0], Le16(w)[1]) == w
  {}

  lemma Unpack16(b0: Byte, b1: Byte)
    ensures Le16(Join16(b0, b1)) == [b0, b1]
  {}

  lemma Memory16Laws()
    ensures MemoryLaws(Reg16())
  {
    var r := Reg16();
    forall a ensures |r.bytes(a)| == r.width && Word(r, r.bytes(a)) == a {
      WordOf16(Le16(a));
      Whole16(a);
    }
    forall s | |s| == r.width ensures r.bytes(Word(r, s)) == s {
      WordOf16(s);
      Unpack16(s[0], s[1]);
    }
  }

  lemma Reg16Lawful()
    ensures Lawful(Reg16())
  {
    Shift16Laws();
    Cancel16Laws();
    Group16Laws();
    Memory16Laws();
  }

  /** The check of a closed message succeeds exactly when its last 2 bytes are the checksum of the rest. */
  lemma Closed16(data: seq<Byte>, tail: seq<Byte>)
    requires |tail| == 2
    ensures Crc16(data + tail) == 0 <==> tail == Le16(Crc16(data))
  {
    Reg16Lawful();
    Residue(Reg16(), CRC_INIT, data, tail);
  }

  /** Two messages that differ at most within 2 consecutive bytes have one checksum only when they are equal. */
  lemma Detects16(f: seq<Byte>, g: seq<Byte>, k: nat)
    requires |f| == |g| && k + 2 <= |f|
    requires forall i :: 0 <= i < |f| && !(k <= i < k + 2) ==> f[i] == g[i]
    ensures Crc16(f) == Crc16(g) <==> f == g
  {
    Reg16Lawful();
    Burst(Reg16(), CRC_INIT, f, g, k);
  }

  // ------------------------------------------------------------ 32 bits

  function Reg32(): Register<bv32> {
    Register(4, 0, Byte32, Xor32, Place32, Le32)
  }

  // The checksum of a message, bit by bit.
  function Crc32(data: seq<Byte>): bv32 {
    Feed(Reg32(), CRC_INIT as bv32, data)
  }

  function Update32(crc: bv32, ch: Byte): bv32 {
    Xor32(crc >> 8, Table32((Xor32(crc, ch as bv32) & 0xff) as bv8))
  }

  lemma BothOdd32(a: bv32, b: bv32)
    requires a & 1 == 1 && b & 1 == 1
    ensures Step32(Xor32(a, b)) == Xor32(Step32(a), Step32(b))
  {}

  lemma OneOdd32(a: bv32, b: bv32)
    requires a & 1 == 1 && b & 1 == 0
    ensures Step32(Xor32(a, b)) == Xor32(Step32(a), Step32(b))
  {}

  lemma NoneOdd32(a: bv32, b: bv32)
    requires a & 1 == 0 && b & 1 == 0
    ensures Step32(Xor32(a, b)) == Xor32(Step32(a), Step32(b))
  {}

  lemma Commute32(a: bv32, b: bv32)
    ensures Xor32(a, b) == Xor32(b, a)
  {}

  lemma LowBit32(a: bv32)
    ensures a & 1 == 0 || a & 1 == 1
  {}

  lemma Step32Linear(a: bv32, b: bv32)
    ensures Step32(Xor32(a, b)) == Xor32(Step32(a), Step32(b))
  {
    LowBit32(a);
    LowBit32(b);
    if a & 1 == 1 {
      if b & 1 == 1 { BothOdd32(a, b); } else { OneOdd32(a, b); }
    } else if b & 1 == 1 {
      OneOdd32(b, a);
      Commute32(a, b);
      Commute32(Step32(a), Step32(b));
    } else {
      NoneOdd32(a, b);
    }
  }

  lemma {:induction false} Steps32Linear(n: nat, a: bv32, b: bv32)
    ensures Steps32(n, Xor32(a, b)) == Xor32(Steps32(n, a), Steps32(n, b))
  {
    if n > 0 {
      Step32Linear(a, b);
      Steps32Linear(n - 1, Step32(a), Step32(b));
    }
  }

  // The polynomial has its top bit set, so a step can be undone.
  lemma Step32Injective(a: bv32, b: bv32)
    requires Step32(a) == Step32(b)
    ensures a == b
  {}

  lemma {:induction false} Steps32Injective(n: nat, a: bv32, b: bv32)
    requires Steps32(n, a) == Steps32(n, b)
    ensures a == b
  {
    if n > 0 {
      Steps32Injective(n - 1, Step32(a), Step32(b));
      Step32Injective(a, b);
    }
  }

  // Eight steps of a word whose low byte is clear only shift it.
  lemma Byte32OfHigh(a: bv32)
    requires a & 0xff == 0
    ensures Byte32(a) == a >> 8
  {
    Eight32(a);
  }

  lemma Split32(crc: bv32, x: bv32, ch: Byte)
    requires x == Xor32(crc, ch as bv32)
    ensures x == Xor32(x & 0xff, x & 0xffffff00) && (x & 0xffffff00) & 0xff == 0 && (x & 0xffffff00) >> 8 == crc >> 8
    ensures ((x & 0xff) as bv8) as bv32 == x & 0xff
  {}

  lemma Byte32Linear(a: bv32, b: bv32)
    ensures Byte32(Xor32(a, b)) == Xor32(Byte32(a), Byte32(b))
  {
    Steps32Linear(BitsPerByte(), a, b);
  }

  // The byte that goes out, through the table, and the rest, only shifted.
  lemma Byte32OfParts(x: bv32, low: bv32, high: bv32, rest: bv32)
    requires x == Xor32(low, high) && high & 0xff == 0 && high >> 8 == rest
    ensures Byte32(x) == Xor32(Byte32(low), rest)
  {
    Byte32Linear(low, high);
    Byte32OfHigh(high);
  }

  lemma Update32At(crc: bv32, ch: Byte, x: bv32)
    requires x == Xor32(crc, ch as bv32)
    ensures Update32(crc, ch) == Xor32(crc >> 8, Table32((x & 0xff) as bv8))
  {
    hide Table32, Xor32;
  }

  /** The table-driven update is eight bit-by-bit steps on the register with the byte mixed in. */
  lemma Update32IsBitwise(crc: bv32, ch: Byte)
    ensures Update32(crc, ch) == Byte32(Xor32(crc, ch as bv32))
  {
    hide Update32, Table32, Byte32, Steps32, Step32, Xor32;
    var x := Xor32(crc, ch as bv32);
    Update32At(crc, ch, x);
    Split32(crc, x, ch);
    Byte32OfParts(x, x & 0xff, x & 0xffffff00, crc >> 8);
    Table32IsEightSteps((x & 0xff) as bv8);
    Commute32(crc >> 8, Byte32(x & 0xff));
  }

  method CRC32Calc(data: seq<Byte>) returns (crc: bv32)
    ensures crc == Crc32(data)
  {
    crc := CRC_INIT as bv32;
    for i := 0 to |data|
      invariant crc == Crc32(data[..i])
    {
      assert data[..i + 1][..i] == data[..i];
      Update32IsBitwise(crc, data[i]);
      crc := Update32(crc, data[i]);
    }
    assert data[..|data|] == data;
  }

  lemma Shift32Laws()
    ensures ShiftLaws(Reg32())
  {
    var r := Reg32();
    forall a, b ensures r.shift(r.mix(a, b)) == r.mix(r.shift(a), r.shift(b)) {
      Byte32Linear(a, b);
    }
    forall a, b | r.shift(a) == r.shift(b) ensures a == b {
      Steps32Injective(BitsPerByte(), a, b);
    }
    Byte32OfHigh(0);
    forall b, k: nat | 0 < k < r.width ensures r.shift(r.place(b, k)) == r.place(b, k - 1) {
      Placed32(b, k);
    }
  }

  lemma XorCancel32(c: bv32, a: bv32, b: bv32)
    requires Xor32(a, c) == Xor32(b, c)
    ensures a == b
  {}

  lemma Cancel32Laws()
    ensures CancelLaws(Reg32())
  {
    var r := Reg32();
    forall c, a, b | r.mix(a, c) == r.mix(b, c) ensures a == b {
      XorCancel32(c, a, b);
    }
    forall c, a, b | r.mix(c, a) == r.mix(c, b) ensures a == b {
      Commute32(c, a);
      Commute32(c, b);
      XorCancel32(c, a, b);
    }
  }

  lemma XorAssociates32(a: bv32, b: bv32, c: bv32)
    ensures Xor32(Xor32(a, b), c) == Xor32(a, Xor32(b, c))
  {}

  lemma Group32Laws()
    ensures GroupLaws(Reg32())
  {
    var r := Reg32();
    forall a, b, c ensures r.mix(r.mix(a, b), c) == r.mix(a, r.mix(b, c)) {
      XorAssociates32(a, b, c);
    }
  }

  lemma PlaceBits32(b: Byte)
    ensures ((b as bv32) << 8) & 0xff == 0 && ((b as bv32) << 8) >> 8 == b as bv32
    ensures ((b as bv32) << 16) & 0xff == 0 && ((b as bv32) << 16) >> 8 == (b as bv32) << 8
    ensures ((b as bv32) << 24) & 0xff == 0 && ((b as bv32) << 24) >> 8 == (b as bv32) << 16
  {}

  lemma Placed32(b: Byte, k: nat)
    requires 0 < k < 4
    ensures Byte32(Place32(b, k)) == Place32(b, k - 1)
  {
    PlaceBits32(b);
    Byte32OfHigh(Place32(b, k));
  }

  lemma WordOf32(s: seq<Byte>)
    requires |s| == 4
    ensures Word(Reg32(), s) == Join32(s[0], s[1], s[2], s[3])
  {
    var r := Reg32();
    assert s[..3][..2] == s[..2] && s[..2][..1] == s[..1] && s[..1][..0] == [];
    assert Mixed(r, 0, s[..1]) == r.mix(0, r.place(s[0], 0));
    assert Mixed(r, 0, s[..2]) == r.mix(Mixed(r, 0, s[..1]), r.place(s[1], 1));
    assert Mixed(r, 0, s[..3]) == r.mix(Mixed(r, 0, s[..2]), r.place(s[2], 2));
  }

  function Join32(b0: Byte, b1: Byte, b2: Byte, b3: Byte): bv32 {
    Xor32(Xor32(Xor32(Xor32(0, Place32(b0, 0)), Place32(b1, 1)), Place32(b2, 2)), Place32(b3, 3))
  }

  lemma Whole32(w: bv32)
    ensures Join32(Le32(w)[0], Le32(w)[1], Le32(w)[2], Le32(w)[3]) == w
  {}

  lemma Unpack32(b0: Byte, b1: Byte, b2: Byte, b3: Byte)
    ensures Le32(Join32(b0, b1, b2, b3)) == [b0, b1, b2, b3]
  {}

  lemma Memory32Laws()
    ensures MemoryLaws(Reg32())
  {
    var r := Reg32();
    forall a ensures |r.bytes(a)| == r.width && Word(r, r.bytes(a)) == a {
      WordOf32(Le32(a));
      Whole32(a);
    }
    forall s | |s| == r.width ensures r.bytes(Word(r, s)) == s {
      WordOf32(s);
      Unpack32(s[0], s[1], s[2], s[3]);
    }
  }

  lemma Reg32Lawful()
    ensures Lawful(Reg32())
  {
    Shift32Laws();
    Cancel32Laws();
    Group32Laws();
    Memory32Laws();
  }

  /** The check of a closed message succeeds exactly when its last 4 bytes are the checksum of the rest. */
  lemma Closed32(data: seq<Byte>, tail: seq<Byte>)
    requires |tail| == 4
    ensures Crc32(data + tail) == 0 <==> tail == Le32(Crc32(data))
  {
    Reg32Lawful();
    Residue(Reg32(), CRC_INIT as bv32, data, tail);
  }

  /** Two messages that differ at most within 4 consecutive bytes have one checksum only when they are equal. */
  lemma Detects32(f: seq<Byte>, g: seq<Byte>, k: nat)
    requires |f| == |g| && k + 4 <= |f|
    requires forall i :: 0 <= i < |f| && !(k <= i < k + 4) ==> f[i] == g[i]
    ensures Crc32(f) == Crc32(g) <==> f == g
  {
    Reg32Lawful();
    Burst(Reg32(), CRC_INIT as bv32, f, g, k);
  }
}
