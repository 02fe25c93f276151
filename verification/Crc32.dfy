/**
 The CRC-32 of ngx_crc32.h: by nibbles, by bytes, and in pieces, all against the definition bit
 by bit (Annex D of the PNG specification).
 */
module Crc32 {

  // ----------------------------------------------------------------- the definition

  // The operators on words, as functions whose laws are proved once below.
  function Xor(x: bv32, y: bv32): bv32 { x ^ y }
  function And(x: bv32, y: bv32): bv32 { x & y }
  function Right(x: bv32): bv32 { x >> 1 }
  function Right4(x: bv32): bv32 { x >> 4 }
  function Right8(x: bv32): bv32 { x >> 8 }
  function Wide(c: bv8): bv32 { c as bv32 }

  const POLYNOMIAL: bv32 := 0xedb88320
  const ONES: bv32 := 0xffffffff

  /** One bit is shifted out; a one is divided by the generator polynomial. */
  function Shift(x: bv32): bv32 { if And(x, 1) == 1 then Xor(Right(x), POLYNOMIAL) else Right(x) }

  function Shift4(x: bv32): bv32 { Shift(Shift(Shift(Shift(x)))) }

  function Shift8(x: bv32): bv32 { Shift4(Shift4(x)) }

  /** The remainder after the bytes `p`, starting from `crc`. */
  function Remainder(crc: bv32, p: seq<bv8>): bv32 {
    if p == [] then crc else Shift8(Xor(Remainder(crc, p[..|p| - 1]), Wide(p[|p| - 1])))
  }

  function Crc(p: seq<bv8>): bv32 { Xor(Remainder(ONES, p), ONES) }

  /** Feeding two pieces one after the other is feeding their concatenation. */
  lemma {:induction false} RemainderSplit(crc: bv32, p: seq<bv8>, q: seq<bv8>)
    ensures Remainder(Remainder(crc, p), q) == Remainder(crc, p + q)
    decreases |q|
  {
    hide Shift8, Xor, Wide;
    if q == [] {
      assert p + q == p;
    } else {
      RemainderSplit(crc, p, q[..|q| - 1]);
      assert (p + q)[..|p + q| - 1] == p + q[..|q| - 1] && (p + q)[|p + q| - 1] == q[|q| - 1];
    }
  }

  // --------------------------------------------------------------------- the tables

  function Place(hi: bv32, lo: bv32): bv32 { (hi << 4) | lo }

  /** ngx_crc32_table16 */
  function Table16(i: bv32): bv32 {
    if i == 0 then 0x00000000 else if i == 1 then 0x1db71064 else if i == 2 then 0x3b6e20c8 else if i == 3 then 0x26d930ac else
    if i == 4 then 0x76dc4190 else if i == 5 then 0x6b6b51f4 else if i == 6 then 0x4db26158 else if i == 7 then 0x5005713c else
    if i == 8 then 0xedb88320 else if i == 9 then 0xf00f9344 else if i == 10 then 0xd6d6a3e8 else if i == 11 then 0xcb61b38c else
    if i == 12 then 0x9b64c2b0 else if i == 13 then 0x86d3d2d4 else if i == 14 then 0xa00ae278 else 0xbdbdf21c
  }

  /** Entries 0x00 to 0x0f of ngx_crc32_table256. */
  function Row0(i: bv32): bv32 {
    if i == 0 then 0x00000000 else if i == 1 then 0x77073096 else if i == 2 then 0xee0e612c else if i == 3 then 0x990951ba else
    if i == 4 then 0x076dc419 else if i == 5 then 0x706af48f else if i == 6 then 0xe963a535 else if i == 7 then 0x9e6495a3 else
    if i == 8 then 0x0edb8832 else if i == 9 then 0x79dcb8a4 else if i == 10 then 0xe0d5e91e else if i == 11 then 0x97d2d988 else
    if i == 12 then 0x09b64c2b else if i == 13 then 0x7eb17cbd else if i == 14 then 0xe7b82d07 else 0x90bf1d91
  }

  /** Entries 0x10 to 0x1f of ngx_crc32_table256. */
  function Row1(i: bv32): bv32 {
    if i == 0 then 0x1db71064 else if i == 1 then 0x6ab020f2 else if i == 2 then 0xf3b97148 else if i == 3 then 0x84be41de else
    if i == 4 then 0x1adad47d else if i == 5 then 0x6ddde4eb else if i == 6 then 0xf4d4b551 else if i == 7 then 0x83d385c7 else
    if i == 8 then 0x136c9856 else if i == 9 then 0x646ba8c0 else if i == 10 then 0xfd62f97a else if i == 11 then 0x8a65c9ec else
    if i == 12 then 0x14015c4f else if i == 13 then 0x63066cd9 else if i == 14 then 0xfa0f3d63 else 0x8d080df5
  }

  /** Entries 0x20 to 0x2f of ngx_crc32_table256. */
  function Row2(i: bv32): bv32 {
    if i == 0 then 0x3b6e20c8 else if i == 1 then 0x4c69105e else if i == 2 then 0xd56041e4 else if i == 3 then 0xa2677172 else
    if i == 4 then 0x3c03e4d1 else if i == 5 then 0x4b04d447 else if i == 6 then 0xd20d85fd else if i == 7 then 0xa50ab56b else
    if i == 8 then 0x35b5a8fa else if i == 9 then 0x42b2986c else if i == 10 then 0xdbbbc9d6 else if i == 11 then 0xacbcf940 else
    if i == 12 then 0x32d86ce3 else if i == 13 then 0x45df5c75 else if i == 14 then 0xdcd60dcf else 0xabd13d59
  }

  /** Entries 0x30 to 0x3f of ngx_crc32_table256. */
  function Row3(i: bv32): bv32 {
    if i == 0 then 0x26d930ac else if i == 1 then 0x51de003a else if i == 2 then 0xc8d75180 else if i == 3 then 0xbfd06116 else
    if i == 4 then 0x21b4f4b5 else if i == 5 then 0x56b3c423 else if i == 6 then 0xcfba9599 else if i == 7 then 0xb8bda50f else
    if i == 8 then 0x2802b89e else if i == 9 then 0x5f058808 else if i == 10 then 0xc60cd9b2 else if i == 11 then 0xb10be924 else
    if i == 12 then 0x2f6f7c87 else if i == 13 then 0x58684c11 else if i == 14 then 0xc1611dab else 0xb6662d3d
  }

  /** Entries 0x40 to 0x4f of ngx_crc32_table256. */
  function Row4(i: bv32): bv32 {
    if i == 0 then 0x76dc4190 else if i == 1 then 0x01db7106 else if i == 2 then 0x98d220bc else if i == 3 then 0xefd5102a else
    if i == 4 then 0x71b18589 else if i == 5 then 0x06b6b51f else if i == 6 then 0x9fbfe4a5 else if i == 7 then 0xe8b8d433 else
    if i == 8 then 0x7807c9a2 else if i == 9 then 0x0f00f934 else if i == 10 then 0x9609a88e else if i == 11 then 0xe10e9818 else
    if i == 12 then 0x7f6a0dbb else if i == 13 then 0x086d3d2d else if i == 14 then 0x91646c97 else 0xe6635c01
  }

  /** Entries 0x50 to 0x5f of ngx_crc32_table256. */
  function Row5(i: bv32): bv32 {
    if i == 0 then 0x6b6b51f4 else if i == 1 then 0x1c6c6162 else if i == 2 then 0x856530d8 else if i == 3 then 0xf262004e else
    if i == 4 then 0x6c0695ed else if i == 5 then 0x1b01a57b else if i == 6 then 0x8208f4c1 else if i == 7 then 0xf50fc457 else
    if i == 8 then 0x65b0d9c6 else if i == 9 then 0x12b7e950 else if i == 10 then 0x8bbeb8ea else if i == 11 then 0xfcb9887c else
    if i == 12 then 0x62dd1ddf else if i == 13 then 0x15da2d49 else if i == 14 then 0x8cd37cf3 else 0xfbd44c65
  }

  /** Entries 0x60 to 0x6f of ngx_crc32_table256. */
  function Row6(i: bv32): bv32 {
    if i == 0 then 0x4db26158 else if i == 1 then 0x3ab551ce else if i == 2 then 0xa3bc0074 else if i == 3 then 0xd4bb30e2 else
    if i == 4 then 0x4adfa541 else if i == 5 then 0x3dd895d7 else if i == 6 then 0xa4d1c46d else if i == 7 then 0xd3d6f4fb else
    if i == 8 then 0x4369e96a else if i == 9 then 0x346ed9fc else if i == 10 then 0xad678846 else if i == 11 then 0xda60b8d0 else
    if i == 12 then 0x44042d73 else if i == 13 then 0x33031de5 else if i == 14 then 0xaa0a4c5f else 0xdd0d7cc9
  }

  /** Entries 0x70 to 0x7f of ngx_crc32_table256. */
  function Row7(i: bv32): bv32 {
    if i == 0 then 0x5005713c else if i == 1 then 0x270241aa else if i == 2 then 0xbe0b1010 else if i == 3 then 0xc90c2086 else
    if i == 4 then 0x5768b525 else if i == 5 then 0x206f85b3 else if i == 6 then 0xb966d409 else if i == 7 then 0xce61e49f else
    if i == 8 then 0x5edef90e else if i == 9 then 0x29d9c998 else if i == 10 then 0xb0d09822 else if i == 11 then 0xc7d7a8b4 else
    if i == 12 then 0x59b33d17 else if i == 13 then 0x2eb40d81 else if i == 14 then 0xb7bd5c3b else 0xc0ba6cad
  }

  /** Entries 0x80 to 0x8f of ngx_crc32_table256. */
  function Row8(i: bv32): bv32 {
    if i == 0 then 0xedb88320 else if i == 1 then 0x9abfb3b6 else if i == 2 then 0x03b6e20c else if i == 3 then 0x74b1d29a else
    if i == 4 then 0xead54739 else if i == 5 then 0x9dd277af else if i == 6 then 0x04db2615 else if i == 7 then 0x73dc1683 else
    if i == 8 then 0xe3630b12 else if i == 9 then 0x94643b84 else if i == 10 then 0x0d6d6a3e else if i == 11 then 0x7a6a5aa8 else
    if i == 12 then 0xe40ecf0b else if i == 13 then 0x9309ff9d else if i == 14 then 0x0a00ae27 else 0x7d079eb1
  }

  /** Entries 0x90 to 0x9f of ngx_crc32_table256. */
  function Row9(i: bv32): bv32 {
    if i == 0 then 0xf00f9344 else if i == 1 then 0x8708a3d2 else if i == 2 then 0x1e01f268 else if i == 3 then 0x6906c2fe else
    if i == 4 then 0xf762575d else if i == 5 then 0x806567cb else if i == 6 then 0x196c3671 else if i == 7 then 0x6e6b06e7 else
    if i == 8 then 0xfed41b76 else if i == 9 then 0x89d32be0 else if i == 10 then 0x10da7a5a else if i == 11 then 0x67dd4acc else
    if i == 12 then 0xf9b9df6f else if i == 13 then 0x8ebeeff9 else if i == 14 then 0x17b7be43 else 0x60b08ed5
  }

  /** Entries 0xa0 to 0xaf of ngx_crc32_table256. */
  function Rowa(i: bv32): bv32 {
    if i == 0 then 0xd6d6a3e8 else if i == 1 then 0xa1d1937e else if i == 2 then 0x38d8c2c4 else if i == 3 then 0x4fdff252 else
    if i == 4 then 0xd1bb67f1 else if i == 5 then 0xa6bc5767 else if i == 6 then 0x3fb506dd else if i == 7 then 0x48b2364b else
    if i == 8 then 0xd80d2bda else if i == 9 then 0xaf0a1b4c else if i == 10 then 0x36034af6 else if i == 11 then 0x41047a60 else
    if i == 12 then 0xdf60efc3 else if i == 13 then 0xa867df55 else if i == 14 then 0x316e8eef else 0x4669be79
  }

  /** Entries 0xb0 to 0xbf of ngx_crc32_table256. */
  function Rowb(i: bv32): bv32 {
    if i == 0 then 0xcb61b38c else if i == 1 then 0xbc66831a else if i == 2 then 0x256fd2a0 else if i == 3 then 0x5268e236 else
    if i == 4 then 0xcc0c7795 else if i == 5 then 0xbb0b4703 else if i == 6 then 0x220216b9 else if i == 7 then 0x5505262f else
    if i == 8 then 0xc5ba3bbe else if i == 9 then 0xb2bd0b28 else if i == 10 then 0x2bb45a92 else if i == 11 then 0x5cb36a04 else
    if i == 12 then 0xc2d7ffa7 else if i == 13 then 0xb5d0cf31 else if i == 14 then 0x2cd99e8b else 0x5bdeae1d
  }

  /** Entries 0xc0 to 0xcf of ngx_crc32_table256. */
  function Rowc(i: bv32): bv32 {
    if i == 0 then 0x9b64c2b0 else if i == 1 then 0xec63f226 else if i == 2 then 0x756aa39c else if i == 3 then 0x026d930a else
    if i == 4 then 0x9c0906a9 else if i == 5 then 0xeb0e363f else if i == 6 then 0x72076785 else if i == 7 then 0x05005713 else
    if i == 8 then 0x95bf4a82 else if i == 9 then 0xe2b87a14 else if i == 10 then 0x7bb12bae else if i == 11 then 0x0cb61b38 else
    if i == 12 then 0x92d28e9b else if i == 13 then 0xe5d5be0d else if i == 14 then 0x7cdcefb7 else 0x0bdbdf21
  }

  /** Entries 0xd0 to 0xdf of ngx_crc32_table256. */
  function Rowd(i: bv32): bv32 {
    if i == 0 then 0x86d3d2d4 else if i == 1 then 0xf1d4e242 else if i == 2 then 0x68ddb3f8 else if i == 3 then 0x1fda836e else
    if i == 4 then 0x81be16cd else if i == 5 then 0xf6b9265b else if i == 6 then 0x6fb077e1 else if i == 7 then 0x18b74777 else
    if i == 8 then 0x88085ae6 else if i == 9 then 0xff0f6a70 else if i == 10 then 0x66063bca else if i == 11 then 0x11010b5c else
    if i == 12 then 0x8f659eff else if i == 13 then 0xf862ae69 else if i == 14 then 0x616bffd3 else 0x166ccf45
  }

  /** Entries 0xe0 to 0xef of ngx_crc32_table256. */
  function Rowe(i: bv32): bv32 {
    if i == 0 then 0xa00ae278 else if i == 1 then 0xd70dd2ee else if i == 2 then 0x4e048354 else if i == 3 then 0x3903b3c2 else
    if i == 4 then 0xa7672661 else if i == 5 then 0xd06016f7 else if i == 6 then 0x4969474d else if i == 7 then 0x3e6e77db else
    if i == 8 then 0xaed16a4a else if i == 9 then 0xd9d65adc else if i == 10 then 0x40df0b66 else if i == 11 then 0x37d83bf0 else
    if i == 12 then 0xa9bcae53 else if i == 13 then 0xdebb9ec5 else if i == 14 then 0x47b2cf7f else 0x30b5ffe9
  }

  /** Entries 0xf0 to 0xff of ngx_crc32_table256. */
  function Rowf(i: bv32): bv32 {
    if i == 0 then 0xbdbdf21c else if i == 1 then 0xcabac28a else if i == 2 then 0x53b39330 else if i == 3 then 0x24b4a3a6 else
    if i == 4 then 0xbad03605 else if i == 5 then 0xcdd70693 else if i == 6 then 0x54de5729 else if i == 7 then 0x23d967bf else
    if i == 8 then 0xb3667a2e else if i == 9 then 0xc4614ab8 else if i == 10 then 0x5d681b02 else if i == 11 then 0x2a6f2b94 else
    if i == 12 then 0xb40bbe37 else if i == 13 then 0xc30c8ea1 else if i == 14 then 0x5a05df1b else 0x2d02ef8d
  }

  function Pick(hi: bv32, lo: bv32): bv32 {
    if hi == 0 then Row0(lo) else if hi == 1 then Row1(lo) else if hi == 2 then Row2(lo) else if hi == 3 then Row3(lo) else
    if hi == 4 then Row4(lo) else if hi == 5 then Row5(lo) else if hi == 6 then Row6(lo) else if hi == 7 then Row7(lo) else
    if hi == 8 then Row8(lo) else if hi == 9 then Row9(lo) else if hi == 10 then Rowa(lo) else if hi == 11 then Rowb(lo) else
    if hi == 12 then Rowc(lo) else if hi == 13 then Rowd(lo) else if hi == 14 then Rowe(lo) else Rowf(lo)
  }

  function Table256(i: bv32): bv32 {
    Pick(Right4(i), And(i, 0xf))
  }

  lemma Table16Entries(i: bv32)
    requires i < 16
    ensures Table16(i) == Shift4(i)
  {
  }

  /** A row of the table differs from the first one by a constant. */
  function Row(h: bv32, i: bv32): bv32 { Xor(Table16(h), Row0(i)) }

  lemma Row1Splits(i: bv32)
    requires i < 16
    ensures Row1(i) == Row(0x1, i)
  {
    Sixteen(i);
  }

  lemma Row2Splits(i: bv32)
    requires i < 16
    ensures Row2(i) == Row(0x2, i)
  {
    Sixteen(i);
  }

  lemma Row3Splits(i: bv32)
    requires i < 16
    ensures Row3(i) == Row(0x3, i)
  {
    Sixteen(i);
  }

  lemma Row4Splits(i: bv32)
    requires i < 16
    ensures Row4(i) == Row(0x4, i)
  {
    Sixteen(i);
  }

  lemma Row5Splits(i: bv32)
    requires i < 16
    ensures Row5(i) == Row(0x5, i)
  {
    Sixteen(i);
  }

  lemma Row6Splits(i: bv32)
    requires i < 16
    ensures Row6(i) == Row(0x6, i)
  {
    Sixteen(i);
  }

  lemma Row7Splits(i: bv32)
    requires i < 16
    ensures Row7(i) == Row(0x7, i)
  {
    Sixteen(i);
  }

  lemma Row8Splits(i: bv32)
    requires i < 16
    ensures Row8(i) == Row(0x8, i)
  {
    Sixteen(i);
  }

  lemma Row9Splits(i: bv32)
    requires i < 16
    ensures Row9(i) == Row(0x9, i)
  {
    Sixteen(i);
  }

  lemma RowaSplits(i: bv32)
    requires i < 16
    ensures Rowa(i) == Row(0xa, i)
  {
    Sixteen(i);
  }

  lemma RowbSplits(i: bv32)
    requires i < 16
    ensures Rowb(i) == Row(0xb, i)
  {
    Sixteen(i);
  }

  lemma RowcSplits(i: bv32)
    requires i < 16
    ensures Rowc(i) == Row(0xc, i)
  {
    Sixteen(i);
  }

  lemma RowdSplits(i: bv32)
    requires i < 16
    ensures Rowd(i) == Row(0xd, i)
  {
    Sixteen(i);
  }

  lemma RoweSplits(i: bv32)
    requires i < 16
    ensures Rowe(i) == Row(0xe, i)
  {
    Sixteen(i);
  }

  lemma RowfSplits(i: bv32)
    requires i < 16
    ensures Rowf(i) == Row(0xf, i)
  {
    Sixteen(i);
  }

  lemma Row0Entries(i: bv32)
    requires i < 16
    ensures Row0(i) == Shift8(i)
  {
    hide Shift4, Row0, Table16, Xor, And, Right4;
    Table16Entries(i);
    NibbleStep(Table16(i));
    Row0Again(i);
  }

  lemma Row0Again(i: bv32)
    requires i < 16
    ensures Row0(i) == Xor(Table16(And(Table16(i), 0xf)), Right4(Table16(i)))
  {
    Sixteen(i);
  }

  lemma RowEntries(h: bv32, i: bv32)
    requires h < 16 && i < 16
    ensures Row(h, i) == Shift8(Place(h, i))
  {
    hide Shift4, Row0, Table16, Xor, And, Right4, Place;
    Placed(h, i);
    Shift8Linear(h << 4, i);
    HighShift4(h << 4);
    Table16Entries(h);
    Row0Entries(i);
  }

  lemma Placed(h: bv32, i: bv32)
    requires h < 16 && i < 16
    ensures Place(h, i) == Xor(h << 4, i) && And(h << 4, 0xf) == 0 && Right4(h << 4) == h
  {
  }

  lemma Row0Is(i: bv32)
    requires i < 16
    ensures Row0(i) == Row(0, i)
  {
    Sixteen(i);
  }

  lemma PickEntries(hi: bv32, lo: bv32)
    requires hi < 16 && lo < 16
    ensures Pick(hi, lo) == Row(hi, lo)
  {
    hide Row, Row0, Row1, Row2, Row3, Row4, Row5, Row6, Row7, Row8, Row9, Rowa, Rowb, Rowc, Rowd, Rowe, Rowf;
    Sixteen(hi);
    if hi == 0 {
      Row0Is(lo);
    } else if hi == 1 {
      Row1Splits(lo);
    } else if hi == 2 {
      Row2Splits(lo);
    } else if hi == 3 {
      Row3Splits(lo);
    } else if hi == 4 {
      Row4Splits(lo);
    } else if hi == 5 {
      Row5Splits(lo);
    } else if hi == 6 {
      Row6Splits(lo);
    } else if hi == 7 {
      Row7Splits(lo);
    } else if hi == 8 {
      Row8Splits(lo);
    } else if hi == 9 {
      Row9Splits(lo);
    } else if hi == 10 {
      RowaSplits(lo);
    } else if hi == 11 {
      RowbSplits(lo);
    } else if hi == 12 {
      RowcSplits(lo);
    } else if hi == 13 {
      RowdSplits(lo);
    } else if hi == 14 {
      RoweSplits(lo);
    } else if hi == 15 {
      RowfSplits(lo);
    }
  }

  lemma Table256Entries(i: bv32)
    requires i < 256
    ensures Table256(i) == Shift8(i)
  {
    hide Shift8, Row, Pick, And, Right4, Place;
    LowNibble(i);
    HighNibble(i);
    PickEntries(Right4(i), And(i, 0xf));
    RowEntries(Right4(i), And(i, 0xf));
    Recompose(i);
  }

  lemma LowNibble(i: bv32)
    ensures And(i, 0xf) < 16 && And(i, 0xff) < 256
  {
  }

  lemma HighNibble(i: bv32)
    requires i < 256
    ensures Right4(i) < 16
  {
  }

  lemma Sixteen(h: bv32)
    requires h < 16
    ensures h == 0 || h == 1 || h == 2 || h == 3 || h == 4 || h == 5 || h == 6 || h == 7
      || h == 8 || h == 9 || h == 10 || h == 11 || h == 12 || h == 13 || h == 14 || h == 15
  {
  }

  lemma Recompose(i: bv32)
    requires i < 256
    ensures i == Place(Right4(i), And(i, 0xf))
  {
  }

  // ------------------------------------------------------------------------ linearity

  lemma XorSwap(x: bv32, y: bv32)
    ensures Xor(x, y) == Xor(y, x)
  {
  }

  lemma XorSecond(a: bv32, b: bv32, p: bv32)
    ensures Xor(a, Xor(b, p)) == Xor(Xor(a, b), p)
  {
  }

  lemma XorCancel(a: bv32, p: bv32)
    ensures Xor(Xor(a, p), p) == a
  {
  }

  lemma XorFirst(a: bv32, b: bv32, p: bv32)
    ensures Xor(Xor(a, p), b) == Xor(Xor(a, b), p)
  {
    hide Xor;
    XorSecond(a, p, b);
    XorSwap(p, b);
    XorSecond(a, b, p);
  }

  lemma XorBoth(a: bv32, b: bv32, p: bv32)
    ensures Xor(Xor(a, p), Xor(b, p)) == Xor(a, b)
  {
    hide Xor;
    XorSecond(Xor(a, p), b, p);
    XorFirst(a, b, p);
    XorCancel(Xor(a, b), p);
  }

  lemma XorRight(x: bv32, y: bv32)
    ensures Right(Xor(x, y)) == Xor(Right(x), Right(y))
  {
  }

  lemma XorOdd(x: bv32, y: bv32)
    ensures And(Xor(x, y), 1) == 1 <==> (And(x, 1) == 1 <==> And(y, 1) != 1)
  {
    Parity(x);
    Parity(y);
    assert And(Xor(x, y), 1) == Xor(And(x, 1), And(y, 1));
  }

  lemma Parity(x: bv32)
    ensures And(x, 1) == 0 || And(x, 1) == 1
  {
  }

  lemma ShiftLinear(x: bv32, y: bv32)
    ensures Shift(Xor(x, y)) == Xor(Shift(x), Shift(y))
  {
    hide Xor, And, Right;
    XorRight(x, y);
    XorOdd(x, y);
    XorBoth(Right(x), Right(y), POLYNOMIAL);
    XorFirst(Right(x), Right(y), POLYNOMIAL);
    XorSecond(Right(x), Right(y), POLYNOMIAL);
  }

  lemma Shift4Linear(x: bv32, y: bv32)
    ensures Shift4(Xor(x, y)) == Xor(Shift4(x), Shift4(y))
  {
    hide Shift, Xor;
    ShiftLinear(x, y);
    ShiftLinear(Shift(x), Shift(y));
    ShiftLinear(Shift(Shift(x)), Shift(Shift(y)));
    ShiftLinear(Shift(Shift(Shift(x))), Shift(Shift(Shift(y))));
  }

  lemma Shift8Linear(x: bv32, y: bv32)
    ensures Shift8(Xor(x, y)) == Xor(Shift8(x), Shift8(y))
  {
    hide Shift4, Xor;
    Shift4Linear(x, y);
    Shift4Linear(Shift4(x), Shift4(y));
  }

  lemma HighShift4(h: bv32)
    requires And(h, 0xf) == 0
    ensures Shift4(h) == Right4(h)
  {
    assert Shift(h) == h >> 1;
    assert Shift(h >> 1) == h >> 2;
    assert Shift(h >> 2) == h >> 3;
    assert Shift(h >> 3) == h >> 4;
  }

  lemma HighShift8(h: bv32)
    requires And(h, 0xff) == 0
    ensures Shift8(h) == Right8(h)
  {
    hide Shift4, And, Right4, Right8;
    HighParts(h);
    HighShift4(h);
    HighShift4(Right4(h));
  }

  lemma HighParts(h: bv32)
    requires And(h, 0xff) == 0
    ensures And(h, 0xf) == 0 && And(Right4(h), 0xf) == 0 && Right4(Right4(h)) == Right8(h)
  {
  }

  lemma Parts4(x: bv32)
    ensures var h := And(x, 0xfffffff0); x == Xor(h, And(x, 0xf)) && And(h, 0xf) == 0 && Right4(h) == Right4(x)
  {
  }

  lemma Parts8(x: bv32)
    ensures var h := And(x, 0xffffff00); x == Xor(h, And(x, 0xff)) && And(h, 0xff) == 0 && Right8(h) == Right8(x)
  {
  }

  /** A table look-up does the work of four shifts. */
  lemma NibbleStep(x: bv32)
    ensures Xor(Table16(And(x, 0xf)), Right4(x)) == Shift4(x)
  {
    hide Shift4, Table16, Xor, And, Right4;
    Parts4(x);
    Shift4Linear(And(x, 0xfffffff0), And(x, 0xf));
    HighShift4(And(x, 0xfffffff0));
    LowNibble(x);
    Table16Entries(And(x, 0xf));
    XorSwap(Shift4(And(x, 0xf)), Right4(x));
  }

  /** A table look-up does the work of eight shifts. */
  lemma ByteStep(x: bv32)
    ensures Xor(Table256(And(x, 0xff)), Right8(x)) == Shift8(x)
  {
    hide Shift8, Table256, Xor, And, Right8;
    Parts8(x);
    Shift8Linear(And(x, 0xffffff00), And(x, 0xff));
    HighShift8(And(x, 0xffffff00));
    LowNibble(x);
    Table256Entries(And(x, 0xff));
    XorSwap(Shift8(And(x, 0xff)), Right8(x));
  }

  /** The program shifts before it adds the byte; the byte does not reach those bits. */
  lemma ByteOnce(crc: bv32, c: bv8)
    ensures Xor(Table256(And(Xor(crc, Wide(c)), 0xff)), Right8(crc)) == Shift8(Xor(crc, Wide(c)))
  {
    hide Shift8, Table256, Xor, And, Right8, Wide;
    ByteStep(Xor(crc, Wide(c)));
    BelowByte(crc, c);
  }

  lemma BelowByte(crc: bv32, c: bv8)
    ensures Right8(Xor(crc, Wide(c))) == Right8(crc)
  {
  }

  lemma NibbleOnce(crc: bv32, n: bv32)
    requires n < 16
    ensures Xor(Table16(And(Xor(crc, n), 0xf)), Right4(crc)) == Shift4(Xor(crc, n))
  {
    hide Shift4, Table16, Xor, And, Right4;
    NibbleStep(Xor(crc, n));
    BelowNibble(crc, n);
  }

  lemma BelowNibble(crc: bv32, n: bv32)
    requires n < 16
    ensures Right4(Xor(crc, n)) == Right4(crc)
  {
  }

  function LowHalf(c: bv8): bv32 { (c & 0xf) as bv32 }
  function HighHalf(c: bv8): bv32 { (c >> 4) as bv32 }

  /** Two nibbles of a byte, low first, make the byte. */
  lemma NibblesMakeByte(crc: bv32, c: bv8)
    ensures LowHalf(c) < 16 && HighHalf(c) < 16
    ensures Shift4(Xor(Shift4(Xor(crc, LowHalf(c))), HighHalf(c))) == Shift8(Xor(crc, Wide(c)))
  {
    hide Shift4, Xor, Wide, LowHalf, HighHalf, And, Right4;
    Halves(c);
    Upper(c);
    Whole(c);
    XorSecond(crc, LowHalf(c), HighHalf(c) << 4);
    Shift4Linear(Xor(crc, LowHalf(c)), HighHalf(c) << 4);
    HighShift4(HighHalf(c) << 4);
  }

  lemma Halves(c: bv8)
    ensures LowHalf(c) < 16 && HighHalf(c) < 16
  {
  }

  lemma Upper(c: bv8)
    ensures And(HighHalf(c) << 4, 0xf) == 0 && Right4(HighHalf(c) << 4) == HighHalf(c)
  {
  }

  lemma Whole(c: bv8)
    ensures Wide(c) == Xor(LowHalf(c), HighHalf(c) << 4)
  {
  }

  // ------------------------------------------------------------------------ the loops

  /** ngx_crc32_short */
  method Short(p: seq<bv8>) returns (crc: bv32)
    ensures crc == Crc(p)
  {
    hide Shift4, Shift8, Table16, Xor, And, Right4, Wide, LowHalf, HighHalf;
    crc := ONES;
    for i := 0 to |p|
      invariant crc == Remainder(ONES, p[..i])
    {
      var c := p[i];
      NibblesMakeByte(crc, c);
      NibbleOnce(crc, LowHalf(c));
      NibbleOnce(Shift4(Xor(crc, LowHalf(c))), HighHalf(c));
      assert p[..i + 1][..i] == p[..i];
      crc := Xor(Table16(And(Xor(crc, LowHalf(c)), 0xf)), Right4(crc));
      crc := Xor(Table16(And(Xor(crc, HighHalf(c)), 0xf)), Right4(crc));
    }
    assert p[..|p|] == p;
    crc := Xor(crc, ONES);
  }

  /** ngx_crc32_update */
  method Update(crc: bv32, p: seq<bv8>) returns (c: bv32)
    ensures c == Remainder(crc, p)
  {
    hide Shift8, Table256, Xor, And, Right8, Wide;
    c := crc;
    for i := 0 to |p|
      invariant c == Remainder(crc, p[..i])
    {
      ByteOnce(c, p[i]);
      assert p[..i + 1][..i] == p[..i];
      c := Xor(Table256(And(Xor(c, Wide(p[i])), 0xff)), Right8(c));
    }
    assert p[..|p|] == p;
  }

  /** ngx_crc32_long */
  method Long(p: seq<bv8>) returns (crc: bv32)
    ensures crc == Crc(p)
  {
    hide Shift8, Table256, Xor, And, Right8, Wide;
    crc := ONES;
    for i := 0 to |p|
      invariant crc == Remainder(ONES, p[..i])
    {
      ByteOnce(crc, p[i]);
      assert p[..i + 1][..i] == p[..i];
      crc := Xor(Table256(And(Xor(crc, Wide(p[i])), 0xff)), Right8(crc));
    }
    assert p[..|p|] == p;
    crc := Xor(crc, ONES);
  }

  ghost function Join(pieces: seq<seq<bv8>>): seq<bv8> {
    if pieces == [] then [] else Join(pieces[..|pieces| - 1]) + pieces[|pieces| - 1]
  }

  /** ngx_crc32_init, any updates and ngx_crc32_final: the checksum of the pieces put together. */
  method InPieces(pieces: seq<seq<bv8>>) returns (crc: bv32)
    ensures crc == Crc(Join(pieces))
  {
    crc := ONES;
    for i := 0 to |pieces|
      invariant crc == Remainder(ONES, Join(pieces[..i]))
    {
      RemainderSplit(ONES, Join(pieces[..i]), pieces[i]);
      assert pieces[..i + 1][..i] == pieces[..i];
      crc := Update(crc, pieces[i]);
    }
    assert pieces[..|pieces|] == pieces;
    crc := Xor(crc, ONES);
  }
}
