/** CRC-32 (crc32.c on a little-endian machine): the table-driven form, which reads aligned words, and
    the bit-by-bit form. */
module Crc32 {
  import opened Bytes

  type Text = seq<bv8>

  const POLY: bv32 := 0xEDB88320
  const NEGL: bv32 := 0xffffffff

  // ---------------------------------------------------------------- the definition

  function Shift1(c: bv32): bv32 { if c & 1 == 1 then (c >> 1) ^ POLY else c >> 1 }

  function Shift8(c: bv32): bv32 {
    Shift1(Shift1(Shift1(Shift1(Shift1(Shift1(Shift1(Shift1(c))))))))
  }

  function Xor(a: bv32, b: bv32): bv32 { a ^ b }

  function LowByte(c: bv32): bv32 { c & 0xff }

  function Shifted(c: bv32): bv32 { c >> 8 }

  function Wide(b: bv8): bv32 { b as bv32 }

  function ByteStep(crc: bv32, b: bv8): bv32 { Xor(Shift8(Xor(LowByte(crc), Wide(b))), Shifted(crc)) }

  function Crc(crc: bv32, data: Text): bv32 {
    if data == [] then crc else ByteStep(Crc(crc, data[..|data| - 1]), data[|data| - 1])
  }

  lemma {:induction false} CrcAppend(crc: bv32, a: Text, b: Text)
    ensures Crc(crc, a + b) == Crc(Crc(crc, a), b)
    decreases |b|
  {
    hide ByteStep;
    if b == [] {
      assert a + b == a;
    } else {
      var k := |b| - 1;
      CrcAppend(crc, a, b[..k]);
      assert (a + b)[..|a + b| - 1] == a + b[..k];
    }
  }

  // ---------------------------------------------------------------- the table

  function Row0(l: bv32): bv32 {
    if l == 0x0 then 0x00000000 else if l == 0x1 then 0x77073096 else if l == 0x2 then 0xee0e612c else if l == 0x3 then 0x990951ba
    else if l == 0x4 then 0x076dc419 else if l == 0x5 then 0x706af48f else if l == 0x6 then 0xe963a535 else if l == 0x7 then 0x9e6495a3
    else if l == 0x8 then 0x0edb8832 else if l == 0x9 then 0x79dcb8a4 else if l == 0xa then 0xe0d5e91e else if l == 0xb then 0x97d2d988
    else if l == 0xc then 0x09b64c2b else if l == 0xd then 0x7eb17cbd else if l == 0xe then 0xe7b82d07 else 0x90bf1d91
  }

  function Row1(l: bv32): bv32 {
    if l == 0x0 then 0x1db71064 else if l == 0x1 then 0x6ab020f2 else if l == 0x2 then 0xf3b97148 else if l == 0x3 then 0x84be41de
    else if l == 0x4 then 0x1adad47d else if l == 0x5 then 0x6ddde4eb else if l == 0x6 then 0xf4d4b551 else if l == 0x7 then 0x83d385c7
    else if l == 0x8 then 0x136c9856 else if l == 0x9 then 0x646ba8c0 else if l == 0xa then 0xfd62f97a else if l == 0xb then 0x8a65c9ec
    else if l == 0xc then 0x14015c4f else if l == 0xd then 0x63066cd9 else if l == 0xe then 0xfa0f3d63 else 0x8d080df5
  }

  function Row2(l: bv32): bv32 {
    if l == 0x0 then 0x3b6e20c8 else if l == 0x1 then 0x4c69105e else if l == 0x2 then 0xd56041e4 else if l == 0x3 then 0xa2677172
    else if l == 0x4 then 0x3c03e4d1 else if l == 0x5 then 0x4b04d447 else if l == 0x6 then 0xd20d85fd else if l == 0x7 then 0xa50ab56b
    else if l == 0x8 then 0x35b5a8fa else if l == 0x9 then 0x42b2986c else if l == 0xa then 0xdbbbc9d6 else if l == 0xb then 0xacbcf940
    else if l == 0xc then 0x32d86ce3 else if l == 0xd then 0x45df5c75 else if l == 0xe then 0xdcd60dcf else 0xabd13d59
  }

  function Row3(l: bv32): bv32 {
    if l == 0x0 then 0x26d930ac else if l == 0x1 then 0x51de003a else if l == 0x2 then 0xc8d75180 else if l == 0x3 then 0xbfd06116
    else if l == 0x4 then 0x21b4f4b5 else if l == 0x5 then 0x56b3c423 else if l == 0x6 then 0xcfba9599 else if l == 0x7 then 0xb8bda50f
    else if l == 0x8 then 0x2802b89e else if l == 0x9 then 0x5f058808 else if l == 0xa then 0xc60cd9b2 else if l == 0xb then 0xb10be924
    else if l == 0xc then 0x2f6f7c87 else if l == 0xd then 0x58684c11 else if l == 0xe then 0xc1611dab else 0xb6662d3d
  }

  function Row4(l: bv32): bv32 {
    if l == 0x0 then 0x76dc4190 else if l == 0x1 then 0x01db7106 else if l == 0x2 then 0x98d220bc else if l == 0x3 then 0xefd5102a
    else if l == 0x4 then 0x71b18589 else if l == 0x5 then 0x06b6b51f else if l == 0x6 then 0x9fbfe4a5 else if l == 0x7 then 0xe8b8d433
    else if l == 0x8 then 0x7807c9a2 else if l == 0x9 then 0x0f00f934 else if l == 0xa then 0x9609a88e else if l == 0xb then 0xe10e9818
    else if l == 0xc then 0x7f6a0dbb else if l == 0xd then 0x086d3d2d else if l == 0xe then 0x91646c97 else 0xe6635c01
  }

  function Row5(l: bv32): bv32 {
    if l == 0x0 then 0x6b6b51f4 else if l == 0x1 then 0x1c6c6162 else if l == 0x2 then 0x856530d8 else if l == 0x3 then 0xf262004e
    else if l == 0x4 then 0x6c0695ed else if l == 0x5 then 0x1b01a57b else if l == 0x6 then 0x8208f4c1 else if l == 0x7 then 0xf50fc457
    else if l == 0x8 then 0x65b0d9c6 else if l == 0x9 then 0x12b7e950 else if l == 0xa then 0x8bbeb8ea else if l == 0xb then 0xfcb9887c
    else if l == 0xc then 0x62dd1ddf else if l == 0xd then 0x15da2d49 else if l == 0xe then 0x8cd37cf3 else 0xfbd44c65
  }

  function Row6(l: bv32): bv32 {
    if l == 0x0 then 0x4db26158 else if l == 0x1 then 0x3ab551ce else if l == 0x2 then 0xa3bc0074 else if l == 0x3 then 0xd4bb30e2
    else if l == 0x4 then 0x4adfa541 else if l == 0x5 then 0x3dd895d7 else if l == 0x6 then 0xa4d1c46d else if l == 0x7 then 0xd3d6f4fb
    else if l == 0x8 then 0x4369e96a else if l == 0x9 then 0x346ed9fc else if l == 0xa then 0xad678846 else if l == 0xb then 0xda60b8d0
    else if l == 0xc then 0x44042d73 else if l == 0xd then 0x33031de5 else if l == 0xe then 0xaa0a4c5f else 0xdd0d7cc9
  }

  function Row7(l: bv32): bv32 {
    if l == 0x0 then 0x5005713c else if l == 0x1 then 0x270241aa else if l == 0x2 then 0xbe0b1010 else if l == 0x3 then 0xc90c2086
    else if l == 0x4 then 0x5768b525 else if l == 0x5 then 0x206f85b3 else if l == 0x6 then 0xb966d409 else if l == 0x7 then 0xce61e49f
    else if l == 0x8 then 0x5edef90e else if l == 0x9 then 0x29d9c998 else if l == 0xa then 0xb0d09822 else if l == 0xb then 0xc7d7a8b4
    else if l == 0xc then 0x59b33d17 else if l == 0xd then 0x2eb40d81 else if l == 0xe then 0xb7bd5c3b else 0xc0ba6cad
  }

  function Row8(l: bv32): bv32 {
    if l == 0x0 then 0xedb88320 else if l == 0x1 then 0x9abfb3b6 else if l == 0x2 then 0x03b6e20c else if l == 0x3 then 0x74b1d29a
    else if l == 0x4 then 0xead54739 else if l == 0x5 then 0x9dd277af else if l == 0x6 then 0x04db2615 else if l == 0x7 then 0x73dc1683
    else if l == 0x8 then 0xe3630b12 else if l == 0x9 then 0x94643b84 else if l == 0xa then 0x0d6d6a3e else if l == 0xb then 0x7a6a5aa8
    else if l == 0xc then 0xe40ecf0b else if l == 0xd then 0x9309ff9d else if l == 0xe then 0x0a00ae27 else 0x7d079eb1
  }

  function Row9(l: bv32): bv32 {
    if l == 0x0 then 0xf00f9344 else if l == 0x1 then 0x8708a3d2 else if l == 0x2 then 0x1e01f268 else if l == 0x3 then 0x6906c2fe
    else if l == 0x4 then 0xf762575d else if l == 0x5 then 0x806567cb else if l == 0x6 then 0x196c3671 else if l == 0x7 then 0x6e6b06e7
    else if l == 0x8 then 0xfed41b76 else if l == 0x9 then 0x89d32be0 else if l == 0xa then 0x10da7a5a else if l == 0xb then 0x67dd4acc
    else if l == 0xc then 0xf9b9df6f else if l == 0xd then 0x8ebeeff9 else if l == 0xe then 0x17b7be43 else 0x60b08ed5
  }

  function RowA(l: bv32): bv32 {
    if l == 0x0 then 0xd6d6a3e8 else if l == 0x1 then 0xa1d1937e else if l == 0x2 then 0x38d8c2c4 else if l == 0x3 then 0x4fdff252
    else if l == 0x4 then 0xd1bb67f1 else if l == 0x5 then 0xa6bc5767 else if l == 0x6 then 0x3fb506dd else if l == 0x7 then 0x48b2364b
    else if l == 0x8 then 0xd80d2bda else if l == 0x9 then 0xaf0a1b4c else if l == 0xa then 0x36034af6 else if l == 0xb then 0x41047a60
    else if l == 0xc then 0xdf60efc3 else if l == 0xd then 0xa867df55 else if l == 0xe then 0x316e8eef else 0x4669be79
  }

  function RowB(l: bv32): bv32 {
    if l == 0x0 then 0xcb61b38c else if l == 0x1 then 0xbc66831a else if l == 0x2 then 0x256fd2a0 else if l == 0x3 then 0x5268e236
    else if l == 0x4 then 0xcc0c7795 else if l == 0x5 then 0xbb0b4703 else if l == 0x6 then 0x220216b9 else if l == 0x7 then 0x5505262f
    else if l == 0x8 then 0xc5ba3bbe else if l == 0x9 then 0xb2bd0b28 else if l == 0xa then 0x2bb45a92 else if l == 0xb then 0x5cb36a04
    else if l == 0xc then 0xc2d7ffa7 else if l == 0xd then 0xb5d0cf31 else if l == 0xe then 0x2cd99e8b else 0x5bdeae1d
  }

  function RowC(l: bv32): bv32 {
    if l == 0x0 then 0x9b64c2b0 else if l == 0x1 then 0xec63f226 else if l == 0x2 then 0x756aa39c else if l == 0x3 then 0x026d930a
    else if l == 0x4 then 0x9c0906a9 else if l == 0x5 then 0xeb0e363f else if l == 0x6 then 0x72076785 else if l == 0x7 then 0x05005713
    else if l == 0x8 then 0x95bf4a82 else if l == 0x9 then 0xe2b87a14 else if l == 0xa then 0x7bb12bae else if l == 0xb then 0x0cb61b38
    else if l == 0xc then 0x92d28e9b else if l == 0xd then 0xe5d5be0d else if l == 0xe then 0x7cdcefb7 else 0x0bdbdf21
  }

  function RowD(l: bv32): bv32 {
    if l == 0x0 then 0x86d3d2d4 else if l == 0x1 then 0xf1d4e242 else if l == 0x2 then 0x68ddb3f8 else if l == 0x3 then 0x1fda836e
    else if l == 0x4 then 0x81be16cd else if l == 0x5 then 0xf6b9265b else if l == 0x6 then 0x6fb077e1 else if l == 0x7 then 0x18b74777
    else if l == 0x8 then 0x88085ae6 else if l == 0x9 then 0xff0f6a70 else if l == 0xa then 0x66063bca else if l == 0xb then 0x11010b5c
    else if l == 0xc then 0x8f659eff else if l == 0xd then 0xf862ae69 else if l == 0xe then 0x616bffd3 else 0x166ccf45
  }

  function RowE(l: bv32): bv32 {
    if l == 0x0 then 0xa00ae278 else if l == 0x1 then 0xd70dd2ee else if l == 0x2 then 0x4e048354 else if l == 0x3 then 0x3903b3c2
    else if l == 0x4 then 0xa7672661 else if l == 0x5 then 0xd06016f7 else if l == 0x6 then 0x4969474d else if l == 0x7 then 0x3e6e77db
    else if l == 0x8 then 0xaed16a4a else if l == 0x9 then 0xd9d65adc else if l == 0xa then 0x40df0b66 else if l == 0xb then 0x37d83bf0
    else if l == 0xc then 0xa9bcae53 else if l == 0xd then 0xdebb9ec5 else if l == 0xe then 0x47b2cf7f else 0x30b5ffe9
  }

  function RowF(l: bv32): bv32 {
    if l == 0x0 then 0xbdbdf21c else if l == 0x1 then 0xcabac28a else if l == 0x2 then 0x53b39330 else if l == 0x3 then 0x24b4a3a6
    else if l == 0x4 then 0xbad03605 else if l == 0x5 then 0xcdd70693 else if l == 0x6 then 0x54de5729 else if l == 0x7 then 0x23d967bf
    else if l == 0x8 then 0xb3667a2e else if l == 0x9 then 0xc4614ab8 else if l == 0xa then 0x5d681b02 else if l == 0xb then 0x2a6f2b94
    else if l == 0xc then 0xb40bbe37 else if l == 0xd then 0xc30c8ea1 else if l == 0xe then 0x5a05df1b else 0x2d02ef8d
  }

  function TabLow(h: bv32, l: bv32): bv32 {
    if h == 0x0 then Row0(l) else if h == 0x1 then Row1(l) else if h == 0x2 then Row2(l) else if h == 0x3 then Row3(l)
    else if h == 0x4 then Row4(l) else if h == 0x5 then Row5(l) else if h == 0x6 then Row6(l) else Row7(l)
  }

  function TabHigh(h: bv32, l: bv32): bv32 {
    if h == 0x8 then Row8(l) else if h == 0x9 then Row9(l) else if h == 0xa then RowA(l) else if h == 0xb then RowB(l)
    else if h == 0xc then RowC(l) else if h == 0xd then RowD(l) else if h == 0xe then RowE(l) else RowF(l)
  }

  function Tab(i: bv32): bv32 {
    var h, l := i >> 4, i & 0xf;
    if h < 8 then TabLow(h, l) else TabHigh(h, l)
  }

  lemma Row0Is(l: bv32)
    requires l < 16
    ensures Row0(l) == Shift8(0x00 | l)
  {}

  lemma Row1Is(l: bv32)
    requires l < 16
    ensures Row1(l) == Shift8(0x10 | l)
  {}

  lemma Row2Is(l: bv32)
    requires l < 16
    ensures Row2(l) == Shift8(0x20 | l)
  {}

  lemma Row3Is(l: bv32)
    requires l < 16
    ensures Row3(l) == Shift8(0x30 | l)
  {}

  lemma Row4Is(l: bv32)
    requires l < 16
    ensures Row4(l) == Shift8(0x40 | l)
  {}

  lemma Row5Is(l: bv32)
    requires l < 16
    ensures Row5(l) == Shift8(0x50 | l)
  {}

  lemma Row6Is(l: bv32)
    requires l < 16
    ensures Row6(l) == Shift8(0x60 | l)
  {}

  lemma Row7Is(l: bv32)
    requires l < 16
    ensures Row7(l) == Shift8(0x70 | l)
  {}

  lemma Row8Is(l: bv32)
    requires l < 16
    ensures Row8(l) == Shift8(0x80 | l)
  {}

  lemma Row9Is(l: bv32)
    requires l < 16
    ensures Row9(l) == Shift8(0x90 | l)
  {}

  lemma RowAIs(l: bv32)
    requires l < 16
    ensures RowA(l) == Shift8(0xa0 | l)
  {}

  lemma RowBIs(l: bv32)
    requires l < 16
    ensures RowB(l) == Shift8(0xb0 | l)
  {}

  lemma RowCIs(l: bv32)
    requires l < 16
    ensures RowC(l) == Shift8(0xc0 | l)
  {}

  lemma RowDIs(l: bv32)
    requires l < 16
    ensures RowD(l) == Shift8(0xd0 | l)
  {}

  lemma RowEIs(l: bv32)
    requires l < 16
    ensures RowE(l) == Shift8(0xe0 | l)
  {}

  lemma RowFIs(l: bv32)
    requires l < 16
    ensures RowF(l) == Shift8(0xf0 | l)
  {}

  lemma TabLowIs(h: bv32, l: bv32)
    requires h < 8 && l < 16
    ensures TabLow(h, l) == Shift8((h << 4) | l)
  {
    hide Shift8, Row0, Row1, Row2, Row3, Row4, Row5, Row6, Row7;
    if h == 0x0 { Row0Is(l); }
    if h == 0x1 { Row1Is(l); }
    if h == 0x2 { Row2Is(l); }
    if h == 0x3 { Row3Is(l); }
    if h == 0x4 { Row4Is(l); }
    if h == 0x5 { Row5Is(l); }
    if h == 0x6 { Row6Is(l); }
    if h == 0x7 { Row7Is(l); }
  }

  lemma TabHighIs(h: bv32, l: bv32)
    requires 8 <= h < 16 && l < 16
    ensures TabHigh(h, l) == Shift8((h << 4) | l)
  {
    hide Shift8, Row8, Row9, RowA, RowB, RowC, RowD, RowE, RowF;
    if h == 0x8 { Row8Is(l); }
    if h == 0x9 { Row9Is(l); }
    if h == 0xa { RowAIs(l); }
    if h == 0xb { RowBIs(l); }
    if h == 0xc { RowCIs(l); }
    if h == 0xd { RowDIs(l); }
    if h == 0xe { RowEIs(l); }
    if h == 0xf { RowFIs(l); }
  }

  // Each entry is what eight single-bit steps make of its index.
  lemma TabIs(i: bv32)
    requires i < 0x100
    ensures Tab(i) == Shift8(i)
  {
    hide Shift8, TabLow, TabHigh;
    var h, l := i >> 4, i & 0xf;
    assert i == (h << 4) | l && h < 0x10 && l < 0x10;
    if h < 8 { TabLowIs(h, l); } else { TabHighIs(h, l); }
  }

  // ---------------------------------------------------------------- words

  function TabStep(c: bv32): bv32 { Xor(Tab(LowByte(c)), Shifted(c)) }

  lemma XorAssociates(a: bv32, b: bv32, c: bv32)
    ensures Xor(a, Xor(b, c)) == Xor(Xor(a, b), c)
  {}

  lemma XorTwice(a: bv32, b: bv32)
    ensures Xor(Xor(a, b), b) == a && Xor(a, 0) == a && Xor(0, a) == a
  {}

  lemma XorParts(a: bv32, b: bv32)
    ensures LowByte(Xor(a, b)) == Xor(LowByte(a), LowByte(b)) && Shifted(Xor(a, b)) == Xor(Shifted(a), Shifted(b))
    ensures LowByte(a) < 0x100
  {}

  lemma IndexFits(crc: bv32, b: bv8)
    ensures Xor(LowByte(crc), Wide(b)) < 0x100
  {}

  // One table step on a combination of crc and pending input bytes takes in the lowest byte.
  lemma StepWord(crc: bv32, w: bv32, b: bv8)
    requires LowByte(w) == Wide(b)
    ensures TabStep(Xor(crc, w)) == Xor(ByteStep(crc, b), Shifted(w))
  {
    hide Tab, Shift8, Xor, LowByte, Shifted, Wide;
    XorParts(crc, w);
    XorParts(Xor(crc, w), 0);
    TabIs(LowByte(Xor(crc, w)));
    XorAssociates(Shift8(Xor(LowByte(crc), Wide(b))), Shifted(crc), Shifted(w));
  }

  // The little-endian word of four bytes.
  function WordAt(b0: bv8, b1: bv8, b2: bv8, b3: bv8): bv32 {
    (b0 as bv32) | (b1 as bv32 << 8) | (b2 as bv32 << 16) | (b3 as bv32 << 24)
  }

  lemma WordBytes(b0: bv8, b1: bv8, b2: bv8, b3: bv8)
    ensures var w := WordAt(b0, b1, b2, b3);
      && LowByte(w) == Wide(b0) && LowByte(Shifted(w)) == Wide(b1) && LowByte(Shifted(Shifted(w))) == Wide(b2)
      && LowByte(Shifted(Shifted(Shifted(w)))) == Wide(b3) && Shifted(Shifted(Shifted(Shifted(w)))) == 0
  {}

  // Four table steps on a word are four byte steps.
  lemma FourSteps(crc: bv32, b0: bv8, b1: bv8, b2: bv8, b3: bv8)
    ensures TabStep(TabStep(TabStep(TabStep(Xor(crc, WordAt(b0, b1, b2, b3)))))) == ByteStep(ByteStep(ByteStep(ByteStep(crc, b0), b1), b2), b3)
  {
    hide TabStep, ByteStep, WordAt, Xor, LowByte, Shifted, Wide;
    WordBytes(b0, b1, b2, b3);
    var w := WordAt(b0, b1, b2, b3);
    var c1 := ByteStep(crc, b0);
    var c2 := ByteStep(c1, b1);
    var c3 := ByteStep(c2, b2);
    StepWord(crc, w, b0);
    StepWord(c1, Shifted(w), b1);
    StepWord(c2, Shifted(Shifted(w)), b2);
    StepWord(c3, Shifted(Shifted(Shifted(w))), b3);
    XorTwice(ByteStep(c3, b3), 0);
  }

  lemma CrcByte(crc: bv32, data: Text, i: nat)
    requires i < |data|
    ensures Crc(crc, data[..i + 1]) == ByteStep(Crc(crc, data[..i]), data[i])
  {
    assert data[..i + 1][..i] == data[..i];
  }

  lemma CrcWord(crc: bv32, data: Text, i: nat)
    requires i + 4 <= |data|
    ensures Crc(crc, data[..i + 4]) ==
      TabStep(TabStep(TabStep(TabStep(Xor(Crc(crc, data[..i]), WordAt(data[i], data[i + 1], data[i + 2], data[i + 3]))))))
  {
    hide ByteStep, TabStep, WordAt, Crc, Xor;
    CrcByte(crc, data, i);
    CrcByte(crc, data, i + 1);
    CrcByte(crc, data, i + 2);
    CrcByte(crc, data, i + 3);
    FourSteps(Crc(crc, data[..i]), data[i], data[i + 1], data[i + 2], data[i + 3]);
  }

  // A table step for one byte.
  lemma TabByte(crc: bv32, b: bv8)
    ensures Xor(Tab(Xor(LowByte(crc), Wide(b))), Shifted(crc)) == ByteStep(crc, b)
  {
    hide Tab, Shift8, Xor, LowByte, Shifted, Wide;
    IndexFits(crc, b);
    TabIs(Xor(LowByte(crc), Wide(b)));
  }

  // ---------------------------------------------------------------- the two forms

  class TableContext {
    var crcState: bv32

    constructor ()
      ensures crcState == 0
    {
      crcState := 0;
    }

    // addr is the address of the data; bytes up to an aligned address, then words, then the rest.
    method Update(data: Text, addr: nat) returns (r: bv32)
      modifies this
      ensures crcState == Xor(Crc(Xor(old(crcState), NEGL), data), NEGL) && r == crcState
    {
      hide Crc, ByteStep, TabStep, Tab, WordAt, Xor, LowByte, Shifted, Wide;
      var start := Xor(crcState, NEGL);
      var crc, i := start, 0;
      assert data[..0] == [] && Crc(start, []) == start by { CrcNothing(start); }
      while (addr + i) % 4 != 0 && i < |data|
        invariant i <= |data| && crc == Crc(start, data[..i])
        decreases |data| - i
      {
        CrcByte(start, data, i);
        TabByte(crc, data[i]);
        crc := Xor(Tab(Xor(LowByte(crc), Wide(data[i]))), Shifted(crc));
        i := i + 1;
      }
      while |data| - i >= 4
        invariant i <= |data| && crc == Crc(start, data[..i])
      {
        CrcWord(start, data, i);
        crc := Xor(crc, WordAt(data[i], data[i + 1], data[i + 2], data[i + 3]));
        crc := TabStep(crc);
        crc := TabStep(crc);
        crc := TabStep(crc);
        crc := TabStep(crc);
        i := i + 4;
      }
      while i < |data|
        invariant i <= |data| && crc == Crc(start, data[..i])
        decreases |data| - i
      {
        CrcByte(start, data, i);
        TabByte(crc, data[i]);
        crc := Xor(Tab(Xor(LowByte(crc), Wide(data[i]))), Shifted(crc));
        i := i + 1;
      }
      assert data[..i] == data;
      crcState := Xor(crc, NEGL);
      r := crcState;
    }

    method Final() returns (r: bv32)
      ensures r == crcState
    {
      r := crcState;
    }
  }

  class BitContext {
    var crcState: bv32

    constructor ()
      ensures crcState == NEGL
    {
      crcState := NEGL;
    }

    method Update(data: Text) returns (r: bv32)
      modifies this
      ensures crcState == Crc(old(crcState), data) && r == Xor(crcState, NEGL)
    {
      hide Crc, ByteStep, Xor;
      var start, crc, i := crcState, crcState, 0;
      assert data[..0] == [] && Crc(start, []) == start by { CrcNothing(start); }
      while i < |data|
        invariant i <= |data| && crc == Crc(start, data[..i])
      {
        CrcByte(start, data, i);
        crc := BitByte(crc, data[i]);
        i := i + 1;
      }
      assert data[..i] == data;
      crcState := crc;
      r := Xor(crc, NEGL);
    }

    method BitByte(crc: bv32, b: bv8) returns (r: bv32)
      ensures r == ByteStep(crc, b)
    {
      hide Shift1, Shift8, Xor, LowByte, Wide, Shifted;
      ghost var c := Xor(LowByte(crc), Wide(b));
      var temp := Xor(LowByte(crc), Wide(b));
      for j := 0 to 8
        invariant temp == ShiftN(j, c)
      {
        temp := BitShift(temp);
      }
      EightShifts(c);
      r := Xor(Shifted(crc), temp);
      XorCommutes(temp, Shifted(crc));
    }

    method BitShift(c: bv32) returns (r: bv32)
      ensures r == Shift1(c)
    {
      if c & 1 != 0 {
        r := (c >> 1) ^ 0xEDB88320;
      } else {
        r := c >> 1;
      }
    }

    method Final() returns (r: bv32)
      modifies this
      ensures r == crcState == Xor(old(crcState), NEGL)
    {
      crcState := Xor(crcState, NEGL);
      r := crcState;
    }
  }

  lemma XorCommutes(a: bv32, b: bv32)
    ensures Xor(a, b) == Xor(b, a)
  {}

  function ShiftN(n: nat, c: bv32): bv32 { if n == 0 then c else Shift1(ShiftN(n - 1, c)) }

  lemma EightShifts(c: bv32)
    ensures ShiftN(8, c) == Shift8(c)
  {
    hide Shift1;
    assert ShiftN(1, c) == Shift1(ShiftN(0, c)) == Shift1(c);
    assert ShiftN(2, c) == Shift1(ShiftN(1, c)) && ShiftN(3, c) == Shift1(ShiftN(2, c)) && ShiftN(4, c) == Shift1(ShiftN(3, c));
    assert ShiftN(5, c) == Shift1(ShiftN(4, c)) && ShiftN(6, c) == Shift1(ShiftN(5, c)) && ShiftN(7, c) == Shift1(ShiftN(6, c));
  }

  lemma CrcNothing(crc: bv32)
    ensures Crc(crc, []) == crc
  {}

  // ---------------------------------------------------------------- both forms compute the same

  function Checksum(data: Text): bv32 { Xor(Crc(NEGL, data), NEGL) }

  // The check value of CRC-32, for the digits 1 to 9.
  lemma CheckValue()
    ensures Checksum([0x31, 0x32, 0x33, 0x34, 0x35, 0x36, 0x37, 0x38, 0x39]) == 0xCBF43926
  {
    hide ByteStep, Crc;
    var d: Text := [0x31, 0x32, 0x33, 0x34, 0x35, 0x36, 0x37, 0x38, 0x39];
    CheckHalf(d);
    LastSteps();
    CrcPrefix(d, 5);
    CrcPrefix(d, 6);
    CrcPrefix(d, 7);
    CrcPrefix(d, 8);
    CrcPrefix(d, 9);
    assert d[..9] == d;
  }

  lemma CheckHalf(d: Text)
    requires |d| >= 4 && d[0] == 0x31 && d[1] == 0x32 && d[2] == 0x33 && d[3] == 0x34
    ensures Crc(NEGL, d[..4]) == 0x641c1f5c
  {
    hide ByteStep, Crc;
    FirstSteps();
    assert d[..0] == [];
    CrcPrefix(d, 1);
    CrcPrefix(d, 2);
    CrcPrefix(d, 3);
    CrcPrefix(d, 4);
  }

  lemma CrcPrefix(d: Text, n: nat)
    requires 0 < n <= |d|
    ensures Crc(NEGL, d[..n]) == ByteStep(Crc(NEGL, d[..n - 1]), d[n - 1])
  {
    hide ByteStep;
    assert d[..n][..n - 1] == d[..n - 1];
  }

  lemma FirstSteps()
    ensures Crc(NEGL, []) == NEGL
    ensures ByteStep(NEGL, 0x31) == 0x7c231048 && ByteStep(0x7c231048, 0x32) == 0xb0acbb32
    ensures ByteStep(0xb0acbb32, 0x33) == 0x77b79c2d && ByteStep(0x77b79c2d, 0x34) == 0x641c1f5c
  {}

  lemma LastSteps()
    ensures ByteStep(0x641c1f5c, 0x35) == 0x340ac5e3 && ByteStep(0x340ac5e3, 0x36) == 0xf68d2c9e
    ensures ByteStep(0xf68d2c9e, 0x37) == 0xaffc9660 && ByteStep(0xaffc9660, 0x38) == 0x651f2550
    ensures ByteStep(0x651f2550, 0x39) == 0x340bc6d9
  {}

  // For every cut of the input and every start address of each piece.
  method TableCrc(pieces: seq<Text>, addrs: seq<nat>) returns (r: bv32)
    requires |addrs| == |pieces|
    ensures r == Checksum(Join(pieces))
  {
    hide Crc, Xor;
    var c := new TableContext();
    CrcNothing(NEGL);
    XorTwice(NEGL, 0);
    for i := 0 to |pieces|
      invariant Xor(c.crcState, NEGL) == Crc(NEGL, Join(pieces[..i]))
    {
      CrcAppend(NEGL, Join(pieces[..i]), pieces[i]);
      assert pieces[..i + 1][..i] == pieces[..i];
      var _ := c.Update(pieces[i], addrs[i]);
      XorTwice(Crc(NEGL, Join(pieces[..i + 1])), NEGL);
    }
    assert pieces[..|pieces|] == pieces;
    r := c.Final();
    XorTwice(r, NEGL);
  }

  method BitCrc(pieces: seq<Text>) returns (r: bv32)
    ensures r == Checksum(Join(pieces))
  {
    hide Crc, Xor;
    var c := new BitContext();
    CrcNothing(NEGL);
    for i := 0 to |pieces|
      invariant c.crcState == Crc(NEGL, Join(pieces[..i]))
    {
      CrcAppend(NEGL, Join(pieces[..i]), pieces[i]);
      assert pieces[..i + 1][..i] == pieces[..i];
      var _ := c.Update(pieces[i]);
    }
    assert pieces[..|pieces|] == pieces;
    r := c.Final();
  }
}
