/**
 * The lookup tables of neumo-dvb-demux.c, sixteen entries a row, and the check that each entry is
 * what eight steps of bitwise division give.
 */
module CrcTables {

  /** One bit of division by x^32 + x^26 + x^23 + x^22 + x^16 + x^12 + x^11 + x^10 + x^8 + x^7 + x^5 + x^4 + x^2 + x + 1. */
  function Step(r: bv32): bv32 {
    if r & 0x8000_0000 != 0 then (r << 1) ^ 0x04c1_1db7 else r << 1
  }

  function Step8(r: bv32): bv32 {
    Step(Step(Step(Step(Step(Step(Step(Step(r))))))))
  }

  /** One bit of division by x^8 + x^7 + x^6 + x^4 + x^2 + 1. */
  function ShortStep(r: bv8): bv8 {
    if r & 0x80 != 0 then (r << 1) ^ 0xd5 else r << 1
  }

  function ShortStep8(r: bv8): bv8 {
    ShortStep(ShortStep(ShortStep(ShortStep(ShortStep(ShortStep(ShortStep(ShortStep(r))))))))
  }

  /** crc32_table */
  function Crc32Table(i: bv32): bv32 {
    match i >> 4
    case 0x0 => Crc32TableRow0(i)
    case 0x1 => Crc32TableRow1(i)
    case 0x2 => Crc32TableRow2(i)
    case 0x3 => Crc32TableRow3(i)
    case 0x4 => Crc32TableRow4(i)
    case 0x5 => Crc32TableRow5(i)
    case 0x6 => Crc32TableRow6(i)
    case 0x7 => Crc32TableRow7(i)
    case 0x8 => Crc32TableRow8(i)
    case 0x9 => Crc32TableRow9(i)
    case 0xa => Crc32TableRowA(i)
    case 0xb => Crc32TableRowB(i)
    case 0xc => Crc32TableRowC(i)
    case 0xd => Crc32TableRowD(i)
    case 0xe => Crc32TableRowE(i)
    case _ => Crc32TableRowF(i)
  }

  lemma Crc32TableOk(i: bv32)
    requires i <= 0xff
    ensures Crc32Table(i) == Step8(i << 24)
  {
    hide Step8;
    match i >> 4
    case 0x0 => Crc32TableRow0Ok(i);
    case 0x1 => Crc32TableRow1Ok(i);
    case 0x2 => Crc32TableRow2Ok(i);
    case 0x3 => Crc32TableRow3Ok(i);
    case 0x4 => Crc32TableRow4Ok(i);
    case 0x5 => Crc32TableRow5Ok(i);
    case 0x6 => Crc32TableRow6Ok(i);
    case 0x7 => Crc32TableRow7Ok(i);
    case 0x8 => Crc32TableRow8Ok(i);
    case 0x9 => Crc32TableRow9Ok(i);
    case 0xa => Crc32TableRowAOk(i);
    case 0xb => Crc32TableRowBOk(i);
    case 0xc => Crc32TableRowCOk(i);
    case 0xd => Crc32TableRowDOk(i);
    case 0xe => Crc32TableRowEOk(i);
    case 0xf => Crc32TableRowFOk(i);
    case _ =>
  }

  function Crc32TableRow0(i: bv32): bv32 {
    match i
    case 0x00 => 0x00000000 case 0x01 => 0x04c11db7 case 0x02 => 0x09823b6e case 0x03 => 0x0d4326d9
    case 0x04 => 0x130476dc case 0x05 => 0x17c56b6b case 0x06 => 0x1a864db2 case 0x07 => 0x1e475005
    case 0x08 => 0x2608edb8 case 0x09 => 0x22c9f00f case 0x0a => 0x2f8ad6d6 case 0x0b => 0x2b4bcb61
    case 0x0c => 0x350c9b64 case 0x0d => 0x31cd86d3 case 0x0e => 0x3c8ea00a case _ => 0x384fbdbd
  }

  lemma Crc32TableRow0Ok(i: bv32)
    requires i >> 4 == 0x0
    ensures Crc32TableRow0(i) == Step8(i << 24)
  {
    match i
    case 0x00 => assert Crc32TableRow0(0x00) == Step8(0x00000000);
    case 0x01 => assert Crc32TableRow0(0x01) == Step8(0x01000000);
    case 0x02 => assert Crc32TableRow0(0x02) == Step8(0x02000000);
    case 0x03 => assert Crc32TableRow0(0x03) == Step8(0x03000000);
    case 0x04 => assert Crc32TableRow0(0x04) == Step8(0x04000000);
    case 0x05 => assert Crc32TableRow0(0x05) == Step8(0x05000000);
    case 0x06 => assert Crc32TableRow0(0x06) == Step8(0x06000000);
    case 0x07 => assert Crc32TableRow0(0x07) == Step8(0x07000000);
    case 0x08 => assert Crc32TableRow0(0x08) == Step8(0x08000000);
    case 0x09 => assert Crc32TableRow0(0x09) == Step8(0x09000000);
    case 0x0a => assert Crc32TableRow0(0x0a) == Step8(0x0a000000);
    case 0x0b => assert Crc32TableRow0(0x0b) == Step8(0x0b000000);
    case 0x0c => assert Crc32TableRow0(0x0c) == Step8(0x0c000000);
    case 0x0d => assert Crc32TableRow0(0x0d) == Step8(0x0d000000);
    case 0x0e => assert Crc32TableRow0(0x0e) == Step8(0x0e000000);
    case 0x0f => assert Crc32TableRow0(0x0f) == Step8(0x0f000000);
    case _ =>
  }

  function Crc32TableRow1(i: bv32): bv32 {
    match i
    case 0x10 => 0x4c11db70 case 0x11 => 0x48d0c6c7 case 0x12 => 0x4593e01e case 0x13 => 0x4152fda9
    case 0x14 => 0x5f15adac case 0x15 => 0x5bd4b01b case 0x16 => 0x569796c2 case 0x17 => 0x52568b75
    case 0x18 => 0x6a1936c8 case 0x19 => 0x6ed82b7f case 0x1a => 0x639b0da6 case 0x1b => 0x675a1011
    case 0x1c => 0x791d4014 case 0x1d => 0x7ddc5da3 case 0x1e => 0x709f7b7a case _ => 0x745e66cd
  }

  lemma Crc32TableRow1Ok(i: bv32)
    requires i >> 4 == 0x1
    ensures Crc32TableRow1(i) == Step8(i << 24)
  {
    match i
    case 0x10 => assert Crc32TableRow1(0x10) == Step8(0x10000000);
    case 0x11 => assert Crc32TableRow1(0x11) == Step8(0x11000000);
    case 0x12 => assert Crc32TableRow1(0x12) == Step8(0x12000000);
    case 0x13 => assert Crc32TableRow1(0x13) == Step8(0x13000000);
    case 0x14 => assert Crc32TableRow1(0x14) == Step8(0x14000000);
    case 0x15 => assert Crc32TableRow1(0x15) == Step8(0x15000000);
    case 0x16 => assert Crc32TableRow1(0x16) == Step8(0x16000000);
    case 0x17 => assert Crc32TableRow1(0x17) == Step8(0x17000000);
    case 0x18 => assert Crc32TableRow1(0x18) == Step8(0x18000000);
    case 0x19 => assert Crc32TableRow1(0x19) == Step8(0x19000000);
    case 0x1a => assert Crc32TableRow1(0x1a) == Step8(0x1a000000);
    case 0x1b => assert Crc32TableRow1(0x1b) == Step8(0x1b000000);
    case 0x1c => assert Crc32TableRow1(0x1c) == Step8(0x1c000000);
    case 0x1d => assert Crc32TableRow1(0x1d) == Step8(0x1d000000);
    case 0x1e => assert Crc32TableRow1(0x1e) == Step8(0x1e000000);
    case 0x1f => assert Crc32TableRow1(0x1f) == Step8(0x1f000000);
    case _ =>
  }

  function Crc32TableRow2(i: bv32): bv32 {
    match i
    case 0x20 => 0x9823b6e0 case 0x21 => 0x9ce2ab57 case 0x22 => 0x91a18d8e case 0x23 => 0x95609039
    case 0x24 => 0x8b27c03c case 0x25 => 0x8fe6dd8b case 0x26 => 0x82a5fb52 case 0x27 => 0x8664e6e5
    case 0x28 => 0xbe2b5b58 case 0x29 => 0xbaea46ef case 0x2a => 0xb7a96036 case 0x2b => 0xb3687d81
    case 0x2c => 0xad2f2d84 case 0x2d => 0xa9ee3033 case 0x2e => 0xa4ad16ea case _ => 0xa06c0b5d
  }

  lemma Crc32TableRow2Ok(i: bv32)
    requires i >> 4 == 0x2
    ensures Crc32TableRow2(i) == Step8(i << 24)
  {
    match i
    case 0x20 => assert Crc32TableRow2(0x20) == Step8(0x20000000);
    case 0x21 => assert Crc32TableRow2(0x21) == Step8(0x21000000);
    case 0x22 => assert Crc32TableRow2(0x22) == Step8(0x22000000);
    case 0x23 => assert Crc32TableRow2(0x23) == Step8(0x23000000);
    case 0x24 => assert Crc32TableRow2(0x24) == Step8(0x24000000);
    case 0x25 => assert Crc32TableRow2(0x25) == Step8(0x25000000);
    case 0x26 => assert Crc32TableRow2(0x26) == Step8(0x26000000);
    case 0x27 => assert Crc32TableRow2(0x27) == Step8(0x27000000);
    case 0x28 => assert Crc32TableRow2(0x28) == Step8(0x28000000);
    case 0x29 => assert Crc32TableRow2(0x29) == Step8(0x29000000);
    case 0x2a => assert Crc32TableRow2(0x2a) == Step8(0x2a000000);
    case 0x2b => assert Crc32TableRow2(0x2b) == Step8(0x2b000000);
    case 0x2c => assert Crc32TableRow2(0x2c) == Step8(0x2c000000);
    case 0x2d => assert Crc32TableRow2(0x2d) == Step8(0x2d000000);
    case 0x2e => assert Crc32TableRow2(0x2e) == Step8(0x2e000000);
    case 0x2f => assert Crc32TableRow2(0x2f) == Step8(0x2f000000);
    case _ =>
  }

  function Crc32TableRow3(i: bv32): bv32 {
    match i
    case 0x30 => 0xd4326d90 case 0x31 => 0xd0f37027 case 0x32 => 0xddb056fe case 0x33 => 0xd9714b49
    case 0x34 => 0xc7361b4c case 0x35 => 0xc3f706fb case 0x36 => 0xceb42022 case 0x37 => 0xca753d95
    case 0x38 => 0xf23a8028 case 0x39 => 0xf6fb9d9f case 0x3a => 0xfbb8bb46 case 0x3b => 0xff79a6f1
    case 0x3c => 0xe13ef6f4 case 0x3d => 0xe5ffeb43 case 0x3e => 0xe8bccd9a case _ => 0xec7dd02d
  }

  lemma Crc32TableRow3Ok(i: bv32)
    requires i >> 4 == 0x3
    ensures Crc32TableRow3(i) == Step8(i << 24)
  {
    match i
    case 0x30 => assert Crc32TableRow3(0x30) == Step8(0x30000000);
    case 0x31 => assert Crc32TableRow3(0x31) == Step8(0x31000000);
    case 0x32 => assert Crc32TableRow3(0x32) == Step8(0x32000000);
    case 0x33 => assert Crc32TableRow3(0x33) == Step8(0x33000000);
    case 0x34 => assert Crc32TableRow3(0x34) == Step8(0x34000000);
    case 0x35 => assert Crc32TableRow3(0x35) == Step8(0x35000000);
    case 0x36 => assert Crc32TableRow3(0x36) == Step8(0x36000000);
    case 0x37 => assert Crc32TableRow3(0x37) == Step8(0x37000000);
    case 0x38 => assert Crc32TableRow3(0x38) == Step8(0x38000000);
    case 0x39 => assert Crc32TableRow3(0x39) == Step8(0x39000000);
    case 0x3a => assert Crc32TableRow3(0x3a) == Step8(0x3a000000);
    case 0x3b => assert Crc32TableRow3(0x3b) == Step8(0x3b000000);
    case 0x3c => assert Crc32TableRow3(0x3c) == Step8(0x3c000000);
    case 0x3d => assert Crc32TableRow3(0x3d) == Step8(0x3d000000);
    case 0x3e => assert Crc32TableRow3(0x3e) == Step8(0x3e000000);
    case 0x3f => assert Crc32TableRow3(0x3f) == Step8(0x3f000000);
    case _ =>
  }

  function Crc32TableRow4(i: bv32): bv32 {
    match i
    case 0x40 => 0x34867077 case 0x41 => 0x30476dc0 case 0x42 => 0x3d044b19 case 0x43 => 0x39c556ae
    case 0x44 => 0x278206ab case 0x45 => 0x23431b1c case 0x46 => 0x2e003dc5 case 0x47 => 0x2ac12072
    case 0x48 => 0x128e9dcf case 0x49 => 0x164f8078 case 0x4a => 0x1b0ca6a1 case 0x4b => 0x1fcdbb16
    case 0x4c => 0x018aeb13 case 0x4d => 0x054bf6a4 case 0x4e => 0x0808d07d case _ => 0x0cc9cdca
  }

  lemma Crc32TableRow4Ok(i: bv32)
    requires i >> 4 == 0x4
    ensures Crc32TableRow4(i) == Step8(i << 24)
  {
    match i
    case 0x40 => assert Crc32TableRow4(0x40) == Step8(0x40000000);
    case 0x41 => assert Crc32TableRow4(0x41) == Step8(0x41000000);
    case 0x42 => assert Crc32TableRow4(0x42) == Step8(0x42000000);
    case 0x43 => assert Crc32TableRow4(0x43) == Step8(0x43000000);
    case 0x44 => assert Crc32TableRow4(0x44) == Step8(0x44000000);
    case 0x45 => assert Crc32TableRow4(0x45) == Step8(0x45000000);
    case 0x46 => assert Crc32TableRow4(0x46) == Step8(0x46000000);
    case 0x47 => assert Crc32TableRow4(0x47) == Step8(0x47000000);
    case 0x48 => assert Crc32TableRow4(0x48) == Step8(0x48000000);
    case 0x49 => assert Crc32TableRow4(0x49) == Step8(0x49000000);
    case 0x4a => assert Crc32TableRow4(0x4a) == Step8(0x4a000000);
    case 0x4b => assert Crc32TableRow4(0x4b) == Step8(0x4b000000);
    case 0x4c => assert Crc32TableRow4(0x4c) == Step8(0x4c000000);
    case 0x4d => assert Crc32TableRow4(0x4d) == Step8(0x4d000000);
    case 0x4e => assert Crc32TableRow4(0x4e) == Step8(0x4e000000);
    case 0x4f => assert Crc32TableRow4(0x4f) == Step8(0x4f000000);
    case _ =>
  }

  function Crc32TableRow5(i: bv32): bv32 {
    match i
    case 0x50 => 0x7897ab07 case 0x51 => 0x7c56b6b0 case 0x52 => 0x71159069 case 0x53 => 0x75d48dde
    case 0x54 => 0x6b93dddb case 0x55 => 0x6f52c06c case 0x56 => 0x6211e6b5 case 0x57 => 0x66d0fb02
    case 0x58 => 0x5e9f46bf case 0x59 => 0x5a5e5b08 case 0x5a => 0x571d7dd1 case 0x5b => 0x53dc6066
    case 0x5c => 0x4d9b3063 case 0x5d => 0x495a2dd4 case 0x5e => 0x44190b0d case _ => 0x40d816ba
  }

  lemma Crc32TableRow5Ok(i: bv32)
    requires i >> 4 == 0x5
    ensures Crc32TableRow5(i) == Step8(i << 24)
  {
    match i
    case 0x50 => assert Crc32TableRow5(0x50) == Step8(0x50000000);
    case 0x51 => assert Crc32TableRow5(0x51) == Step8(0x51000000);
    case 0x52 => assert Crc32TableRow5(0x52) == Step8(0x52000000);
    case 0x53 => assert Crc32TableRow5(0x53) == Step8(0x53000000);
    case 0x54 => assert Crc32TableRow5(0x54) == Step8(0x54000000);
    case 0x55 => assert Crc32TableRow5(0x55) == Step8(0x55000000);
    case 0x56 => assert Crc32TableRow5(0x56) == Step8(0x56000000);
    case 0x57 => assert Crc32TableRow5(0x57) == Step8(0x57000000);
    case 0x58 => assert Crc32TableRow5(0x58) == Step8(0x58000000);
    case 0x59 => assert Crc32TableRow5(0x59) == Step8(0x59000000);
    case 0x5a => assert Crc32TableRow5(0x5a) == Step8(0x5a000000);
    case 0x5b => assert Crc32TableRow5(0x5b) == Step8(0x5b000000);
    case 0x5c => assert Crc32TableRow5(0x5c) == Step8(0x5c000000);
    case 0x5d => assert Crc32TableRow5(0x5d) == Step8(0x5d000000);
    case 0x5e => assert Crc32TableRow5(0x5e) == Step8(0x5e000000);
    case 0x5f => assert Crc32TableRow5(0x5f) == Step8(0x5f000000);
    case _ =>
  }

  function Crc32TableRow6(i: bv32): bv32 {
    match i
    case 0x60 => 0xaca5c697 case 0x61 => 0xa864db20 case 0x62 => 0xa527fdf9 case 0x63 => 0xa1e6e04e
    case 0x64 => 0xbfa1b04b case 0x65 => 0xbb60adfc case 0x66 => 0xb6238b25 case 0x67 => 0xb2e29692
    case 0x68 => 0x8aad2b2f case 0x69 => 0x8e6c3698 case 0x6a => 0x832f1041 case 0x6b => 0x87ee0df6
    case 0x6c => 0x99a95df3 case 0x6d => 0x9d684044 case 0x6e => 0x902b669d case _ => 0x94ea7b2a
  }

  lemma Crc32TableRow6Ok(i: bv32)
    requires i >> 4 == 0x6
    ensures Crc32TableRow6(i) == Step8(i << 24)
  {
    match i
    case 0x60 => assert Crc32TableRow6(0x60) == Step8(0x60000000);
    case 0x61 => assert Crc32TableRow6(0x61) == Step8(0x61000000);
    case 0x62 => assert Crc32TableRow6(0x62) == Step8(0x62000000);
    case 0x63 => assert Crc32TableRow6(0x63) == Step8(0x63000000);
    case 0x64 => assert Crc32TableRow6(0x64) == Step8(0x64000000);
    case 0x65 => assert Crc32TableRow6(0x65) == Step8(0x65000000);
    case 0x66 => assert Crc32TableRow6(0x66) == Step8(0x66000000);
    case 0x67 => assert Crc32TableRow6(0x67) == Step8(0x67000000);
    case 0x68 => assert Crc32TableRow6(0x68) == Step8(0x68000000);
    case 0x69 => assert Crc32TableRow6(0x69) == Step8(0x69000000);
    case 0x6a => assert Crc32TableRow6(0x6a) == Step8(0x6a000000);
    case 0x6b => assert Crc32TableRow6(0x6b) == Step8(0x6b000000);
    case 0x6c => assert Crc32TableRow6(0x6c) == Step8(0x6c000000);
    case 0x6d => assert Crc32TableRow6(0x6d) == Step8(0x6d000000);
    case 0x6e => assert Crc32TableRow6(0x6e) == Step8(0x6e000000);
    case 0x6f => assert Crc32TableRow6(0x6f) == Step8(0x6f000000);
    case _ =>
  }

  function Crc32TableRow7(i: bv32): bv32 {
    match i
    case 0x70 => 0xe0b41de7 case 0x71 => 0xe4750050 case 0x72 => 0xe9362689 case 0x73 => 0xedf73b3e
    case 0x74 => 0xf3b06b3b case 0x75 => 0xf771768c case 0x76 => 0xfa325055 case 0x77 => 0xfef34de2
    case 0x78 => 0xc6bcf05f case 0x79 => 0xc27dede8 case 0x7a => 0xcf3ecb31 case 0x7b => 0xcbffd686
    case 0x7c => 0xd5b88683 case 0x7d => 0xd1799b34 case 0x7e => 0xdc3abded case _ => 0xd8fba05a
  }

  lemma Crc32TableRow7Ok(i: bv32)
    requires i >> 4 == 0x7
    ensures Crc32TableRow7(i) == Step8(i << 24)
  {
    match i
    case 0x70 => assert Crc32TableRow7(0x70) == Step8(0x70000000);
    case 0x71 => assert Crc32TableRow7(0x71) == Step8(0x71000000);
    case 0x72 => assert Crc32TableRow7(0x72) == Step8(0x72000000);
    case 0x73 => assert Crc32TableRow7(0x73) == Step8(0x73000000);
    case 0x74 => assert Crc32TableRow7(0x74) == Step8(0x74000000);
    case 0x75 => assert Crc32TableRow7(0x75) == Step8(0x75000000);
    case 0x76 => assert Crc32TableRow7(0x76) == Step8(0x76000000);
    case 0x77 => assert Crc32TableRow7(0x77) == Step8(0x77000000);
    case 0x78 => assert Crc32TableRow7(0x78) == Step8(0x78000000);
    case 0x79 => assert Crc32TableRow7(0x79) == Step8(0x79000000);
    case 0x7a => assert Crc32TableRow7(0x7a) == Step8(0x7a000000);
    case 0x7b => assert Crc32TableRow7(0x7b) == Step8(0x7b000000);
    case 0x7c => assert Crc32TableRow7(0x7c) == Step8(0x7c000000);
    case 0x7d => assert Crc32TableRow7(0x7d) == Step8(0x7d000000);
    case 0x7e => assert Crc32TableRow7(0x7e) == Step8(0x7e000000);
    case 0x7f => assert Crc32TableRow7(0x7f) == Step8(0x7f000000);
    case _ =>
  }

  function Crc32TableRow8(i: bv32): bv32 {
    match i
    case 0x80 => 0x690ce0ee case 0x81 => 0x6dcdfd59 case 0x82 => 0x608edb80 case 0x83 => 0x644fc637
    case 0x84 => 0x7a089632 case 0x85 => 0x7ec98b85 case 0x86 => 0x738aad5c case 0x87 => 0x774bb0eb
    case 0x88 => 0x4f040d56 case 0x89 => 0x4bc510e1 case 0x8a => 0x46863638 case 0x8b => 0x42472b8f
    case 0x8c => 0x5c007b8a case 0x8d => 0x58c1663d case 0x8e => 0x558240e4 case _ => 0x51435d53
  }

  lemma Crc32TableRow8Ok(i: bv32)
    requires i >> 4 == 0x8
    ensures Crc32TableRow8(i) == Step8(i << 24)
  {
    match i
    case 0x80 => assert Crc32TableRow8(0x80) == Step8(0x80000000);
    case 0x81 => assert Crc32TableRow8(0x81) == Step8(0x81000000);
    case 0x82 => assert Crc32TableRow8(0x82) == Step8(0x82000000);
    case 0x83 => assert Crc32TableRow8(0x83) == Step8(0x83000000);
    case 0x84 => assert Crc32TableRow8(0x84) == Step8(0x84000000);
    case 0x85 => assert Crc32TableRow8(0x85) == Step8(0x85000000);
    case 0x86 => assert Crc32TableRow8(0x86) == Step8(0x86000000);
    case 0x87 => assert Crc32TableRow8(0x87) == Step8(0x87000000);
    case 0x88 => assert Crc32TableRow8(0x88) == Step8(0x88000000);
    case 0x89 => assert Crc32TableRow8(0x89) == Step8(0x89000000);
    case 0x8a => assert Crc32TableRow8(0x8a) == Step8(0x8a000000);
    case 0x8b => assert Crc32TableRow8(0x8b) == Step8(0x8b000000);
    case 0x8c => assert Crc32TableRow8(0x8c) == Step8(0x8c000000);
    case 0x8d => assert Crc32TableRow8(0x8d) == Step8(0x8d000000);
    case 0x8e => assert Crc32TableRow8(0x8e) == Step8(0x8e000000);
    case 0x8f => assert Crc32TableRow8(0x8f) == Step8(0x8f000000);
    case _ =>
  }

  function Crc32TableRow9(i: bv32): bv32 {
    match i
    case 0x90 => 0x251d3b9e case 0x91 => 0x21dc2629 case 0x92 => 0x2c9f00f0 case 0x93 => 0x285e1d47
    case 0x94 => 0x36194d42 case 0x95 => 0x32d850f5 case 0x96 => 0x3f9b762c case 0x97 => 0x3b5a6b9b
    case 0x98 => 0x0315d626 case 0x99 => 0x07d4cb91 case 0x9a => 0x0a97ed48 case 0x9b => 0x0e56f0ff
    case 0x9c => 0x1011a0fa case 0x9d => 0x14d0bd4d case 0x9e => 0x19939b94 case _ => 0x1d528623
  }

  lemma Crc32TableRow9Ok(i: bv32)
    requires i >> 4 == 0x9
    ensures Crc32TableRow9(i) == Step8(i << 24)
  {
    match i
    case 0x90 => assert Crc32TableRow9(0x90) == Step8(0x90000000);
    case 0x91 => assert Crc32TableRow9(0x91) == Step8(0x91000000);
    case 0x92 => assert Crc32TableRow9(0x92) == Step8(0x92000000);
    case 0x93 => assert Crc32TableRow9(0x93) == Step8(0x93000000);
    case 0x94 => assert Crc32TableRow9(0x94) == Step8(0x94000000);
    case 0x95 => assert Crc32TableRow9(0x95) == Step8(0x95000000);
    case 0x96 => assert Crc32TableRow9(0x96) == Step8(0x96000000);
    case 0x97 => assert Crc32TableRow9(0x97) == Step8(0x97000000);
    case 0x98 => assert Crc32TableRow9(0x98) == Step8(0x98000000);
    case 0x99 => assert Crc32TableRow9(0x99) == Step8(0x99000000);
    case 0x9a => assert Crc32TableRow9(0x9a) == Step8(0x9a000000);
    case 0x9b => assert Crc32TableRow9(0x9b) == Step8(0x9b000000);
    case 0x9c => assert Crc32TableRow9(0x9c) == Step8(0x9c000000);
    case 0x9d => assert Crc32TableRow9(0x9d) == Step8(0x9d000000);
    case 0x9e => assert Crc32TableRow9(0x9e) == Step8(0x9e000000);
    case 0x9f => assert Crc32TableRow9(0x9f) == Step8(0x9f000000);
    case _ =>
  }

  function Crc32TableRowA(i: bv32): bv32 {
    match i
    case 0xa0 => 0xf12f560e case 0xa1 => 0xf5ee4bb9 case 0xa2 => 0xf8ad6d60 case 0xa3 => 0xfc6c70d7
    case 0xa4 => 0xe22b20d2 case 0xa5 => 0xe6ea3d65 case 0xa6 => 0xeba91bbc case 0xa7 => 0xef68060b
    case 0xa8 => 0xd727bbb6 case 0xa9 => 0xd3e6a601 case 0xaa => 0xdea580d8 case 0xab => 0xda649d6f
    case 0xac => 0xc423cd6a case 0xad => 0xc0e2d0dd case 0xae => 0xcda1f604 case _ => 0xc960ebb3
  }

  lemma Crc32TableRowAOk(i: bv32)
    requires i >> 4 == 0xa
    ensures Crc32TableRowA(i) == Step8(i << 24)
  {
    match i
    case 0xa0 => assert Crc32TableRowA(0xa0) == Step8(0xa0000000);
    case 0xa1 => assert Crc32TableRowA(0xa1) == Step8(0xa1000000);
    case 0xa2 => assert Crc32TableRowA(0xa2) == Step8(0xa2000000);
    case 0xa3 => assert Crc32TableRowA(0xa3) == Step8(0xa3000000);
    case 0xa4 => assert Crc32TableRowA(0xa4) == Step8(0xa4000000);
    case 0xa5 => assert Crc32TableRowA(0xa5) == Step8(0xa5000000);
    case 0xa6 => assert Crc32TableRowA(0xa6) == Step8(0xa6000000);
    case 0xa7 => assert Crc32TableRowA(0xa7) == Step8(0xa7000000);
    case 0xa8 => assert Crc32TableRowA(0xa8) == Step8(0xa8000000);
    case 0xa9 => assert Crc32TableRowA(0xa9) == Step8(0xa9000000);
    case 0xaa => assert Crc32TableRowA(0xaa) == Step8(0xaa000000);
    case 0xab => assert Crc32TableRowA(0xab) == Step8(0xab000000);
    case 0xac => assert Crc32TableRowA(0xac) == Step8(0xac000000);
    case 0xad => assert Crc32TableRowA(0xad) == Step8(0xad000000);
    case 0xae => assert Crc32TableRowA(0xae) == Step8(0xae000000);
    case 0xaf => assert Crc32TableRowA(0xaf) == Step8(0xaf000000);
    case _ =>
  }

  function Crc32TableRowB(i: bv32): bv32 {
    match i
    case 0xb0 => 0xbd3e8d7e case 0xb1 => 0xb9ff90c9 case 0xb2 => 0xb4bcb610 case 0xb3 => 0xb07daba7
    case 0xb4 => 0xae3afba2 case 0xb5 => 0xaafbe615 case 0xb6 => 0xa7b8c0cc case 0xb7 => 0xa379dd7b
    case 0xb8 => 0x9b3660c6 case 0xb9 => 0x9ff77d71 case 0xba => 0x92b45ba8 case 0xbb => 0x9675461f
    case 0xbc => 0x8832161a case 0xbd => 0x8cf30bad case 0xbe => 0x81b02d74 case _ => 0x857130c3
  }

  lemma Crc32TableRowBOk(i: bv32)
    requires i >> 4 == 0xb
    ensures Crc32TableRowB(i) == Step8(i << 24)
  {
    match i
    case 0xb0 => assert Crc32TableRowB(0xb0) == Step8(0xb0000000);
    case 0xb1 => assert Crc32TableRowB(0xb1) == Step8(0xb1000000);
    case 0xb2 => assert Crc32TableRowB(0xb2) == Step8(0xb2000000);
    case 0xb3 => assert Crc32TableRowB(0xb3) == Step8(0xb3000000);
    case 0xb4 => assert Crc32TableRowB(0xb4) == Step8(0xb4000000);
    case 0xb5 => assert Crc32TableRowB(0xb5) == Step8(0xb5000000);
    case 0xb6 => assert Crc32TableRowB(0xb6) == Step8(0xb6000000);
    case 0xb7 => assert Crc32TableRowB(0xb7) == Step8(0xb7000000);
    case 0xb8 => assert Crc32TableRowB(0xb8) == Step8(0xb8000000);
    case 0xb9 => assert Crc32TableRowB(0xb9) == Step8(0xb9000000);
    case 0xba => assert Crc32TableRowB(0xba) == Step8(0xba000000);
    case 0xbb => assert Crc32TableRowB(0xbb) == Step8(0xbb000000);
    case 0xbc => assert Crc32TableRowB(0xbc) == Step8(0xbc000000);
    case 0xbd => assert Crc32TableRowB(0xbd) == Step8(0xbd000000);
    case 0xbe => assert Crc32TableRowB(0xbe) == Step8(0xbe000000);
    case 0xbf => assert Crc32TableRowB(0xbf) == Step8(0xbf000000);
    case _ =>
  }

  function Crc32TableRowC(i: bv32): bv32 {
    match i
    case 0xc0 => 0x5d8a9099 case 0xc1 => 0x594b8d2e case 0xc2 => 0x5408abf7 case 0xc3 => 0x50c9b640
    case 0xc4 => 0x4e8ee645 case 0xc5 => 0x4a4ffbf2 case 0xc6 => 0x470cdd2b case 0xc7 => 0x43cdc09c
    case 0xc8 => 0x7b827d21 case 0xc9 => 0x7f436096 case 0xca => 0x7200464f case 0xcb => 0x76c15bf8
    case 0xcc => 0x68860bfd case 0xcd => 0x6c47164a case 0xce => 0x61043093 case _ => 0x65c52d24
  }

  lemma Crc32TableRowCOk(i: bv32)
    requires i >> 4 == 0xc
    ensures Crc32TableRowC(i) == Step8(i << 24)
  {
    match i
    case 0xc0 => assert Crc32TableRowC(0xc0) == Step8(0xc0000000);
    case 0xc1 => assert Crc32TableRowC(0xc1) == Step8(0xc1000000);
    case 0xc2 => assert Crc32TableRowC(0xc2) == Step8(0xc2000000);
    case 0xc3 => assert Crc32TableRowC(0xc3) == Step8(0xc3000000);
    case 0xc4 => assert Crc32TableRowC(0xc4) == Step8(0xc4000000);
    case 0xc5 => assert Crc32TableRowC(0xc5) == Step8(0xc5000000);
    case 0xc6 => assert Crc32TableRowC(0xc6) == Step8(0xc6000000);
    case 0xc7 => assert Crc32TableRowC(0xc7) == Step8(0xc7000000);
    case 0xc8 => assert Crc32TableRowC(0xc8) == Step8(0xc8000000);
    case 0xc9 => assert Crc32TableRowC(0xc9) == Step8(0xc9000000);
    case 0xca => assert Crc32TableRowC(0xca) == Step8(0xca000000);
    case 0xcb => assert Crc32TableRowC(0xcb) == Step8(0xcb000000);
    case 0xcc => assert Crc32TableRowC(0xcc) == Step8(0xcc000000);
    case 0xcd => assert Crc32TableRowC(0xcd) == Step8(0xcd000000);
    case 0xce => assert Crc32TableRowC(0xce) == Step8(0xce000000);
    case 0xcf => assert Crc32TableRowC(0xcf) == Step8(0xcf000000);
    case _ =>
  }

  function Crc32TableRowD(i: bv32): bv32 {
    match i
    case 0xd0 => 0x119b4be9 case 0xd1 => 0x155a565e case 0xd2 => 0x18197087 case 0xd3 => 0x1cd86d30
    case 0xd4 => 0x029f3d35 case 0xd5 => 0x065e2082 case 0xd6 => 0x0b1d065b case 0xd7 => 0x0fdc1bec
    case 0xd8 => 0x3793a651 case 0xd9 => 0x3352bbe6 case 0xda => 0x3e119d3f case 0xdb => 0x3ad08088
    case 0xdc => 0x2497d08d case 0xdd => 0x2056cd3a case 0xde => 0x2d15ebe3 case _ => 0x29d4f654
  }

  lemma Crc32TableRowDOk(i: bv32)
    requires i >> 4 == 0xd
    ensures Crc32TableRowD(i) == Step8(i << 24)
  {
    match i
    case 0xd0 => assert Crc32TableRowD(0xd0) == Step8(0xd0000000);
    case 0xd1 => assert Crc32TableRowD(0xd1) == Step8(0xd1000000);
    case 0xd2 => assert Crc32TableRowD(0xd2) == Step8(0xd2000000);
    case 0xd3 => assert Crc32TableRowD(0xd3) == Step8(0xd3000000);
    case 0xd4 => assert Crc32TableRowD(0xd4) == Step8(0xd4000000);
    case 0xd5 => assert Crc32TableRowD(0xd5) == Step8(0xd5000000);
    case 0xd6 => assert Crc32TableRowD(0xd6) == Step8(0xd6000000);
    case 0xd7 => assert Crc32TableRowD(0xd7) == Step8(0xd7000000);
    case 0xd8 => assert Crc32TableRowD(0xd8) == Step8(0xd8000000);
    case 0xd9 => assert Crc32TableRowD(0xd9) == Step8(0xd9000000);
    case 0xda => assert Crc32TableRowD(0xda) == Step8(0xda000000);
    case 0xdb => assert Crc32TableRowD(0xdb) == Step8(0xdb000000);
    case 0xdc => assert Crc32TableRowD(0xdc) == Step8(0xdc000000);
    case 0xdd => assert Crc32TableRowD(0xdd) == Step8(0xdd000000);
    case 0xde => assert Crc32TableRowD(0xde) == Step8(0xde000000);
    case 0xdf => assert Crc32TableRowD(0xdf) == Step8(0xdf000000);
    case _ =>
  }

  function Crc32TableRowE(i: bv32): bv32 {
    match i
    case 0xe0 => 0xc5a92679 case 0xe1 => 0xc1683bce case 0xe2 => 0xcc2b1d17 case 0xe3 => 0xc8ea00a0
    case 0xe4 => 0xd6ad50a5 case 0xe5 => 0xd26c4d12 case 0xe6 => 0xdf2f6bcb case 0xe7 => 0xdbee767c
    case 0xe8 => 0xe3a1cbc1 case 0xe9 => 0xe760d676 case 0xea => 0xea23f0af case 0xeb => 0xeee2ed18
    case 0xec => 0xf0a5bd1d case 0xed => 0xf464a0aa case 0xee => 0xf9278673 case _ => 0xfde69bc4
  }

  lemma Crc32TableRowEOk(i: bv32)
    requires i >> 4 == 0xe
    ensures Crc32TableRowE(i) == Step8(i << 24)
  {
    match i
    case 0xe0 => assert Crc32TableRowE(0xe0) == Step8(0xe0000000);
    case 0xe1 => assert Crc32TableRowE(0xe1) == Step8(0xe1000000);
    case 0xe2 => assert Crc32TableRowE(0xe2) == Step8(0xe2000000);
    case 0xe3 => assert Crc32TableRowE(0xe3) == Step8(0xe3000000);
    case 0xe4 => assert Crc32TableRowE(0xe4) == Step8(0xe4000000);
    case 0xe5 => assert Crc32TableRowE(0xe5) == Step8(0xe5000000);
    case 0xe6 => assert Crc32TableRowE(0xe6) == Step8(0xe6000000);
    case 0xe7 => assert Crc32TableRowE(0xe7) == Step8(0xe7000000);
    case 0xe8 => assert Crc32TableRowE(0xe8) == Step8(0xe8000000);
    case 0xe9 => assert Crc32TableRowE(0xe9) == Step8(0xe9000000);
    case 0xea => assert Crc32TableRowE(0xea) == Step8(0xea000000);
    case 0xeb => assert Crc32TableRowE(0xeb) == Step8(0xeb000000);
    case 0xec => assert Crc32TableRowE(0xec) == Step8(0xec000000);
    case 0xed => assert Crc32TableRowE(0xed) == Step8(0xed000000);
    case 0xee => assert Crc32TableRowE(0xee) == Step8(0xee000000);
    case 0xef => assert Crc32TableRowE(0xef) == Step8(0xef000000);
    case _ =>
  }

  function Crc32TableRowF(i: bv32): bv32 {
    match i
    case 0xf0 => 0x89b8fd09 case 0xf1 => 0x8d79e0be case 0xf2 => 0x803ac667 case 0xf3 => 0x84fbdbd0
    case 0xf4 => 0x9abc8bd5 case 0xf5 => 0x9e7d9662 case 0xf6 => 0x933eb0bb case 0xf7 => 0x97ffad0c
    case 0xf8 => 0xafb010b1 case 0xf9 => 0xab710d06 case 0xfa => 0xa6322bdf case 0xfb => 0xa2f33668
    case 0xfc => 0xbcb4666d case 0xfd => 0xb8757bda case 0xfe => 0xb5365d03 case _ => 0xb1f740b4
  }

  lemma Crc32TableRowFOk(i: bv32)
    requires i >> 4 == 0xf
    ensures Crc32TableRowF(i) == Step8(i << 24)
  {
    match i
    case 0xf0 => assert Crc32TableRowF(0xf0) == Step8(0xf0000000);
    case 0xf1 => assert Crc32TableRowF(0xf1) == Step8(0xf1000000);
    case 0xf2 => assert Crc32TableRowF(0xf2) == Step8(0xf2000000);
    case 0xf3 => assert Crc32TableRowF(0xf3) == Step8(0xf3000000);
    case 0xf4 => assert Crc32TableRowF(0xf4) == Step8(0xf4000000);
    case 0xf5 => assert Crc32TableRowF(0xf5) == Step8(0xf5000000);
    case 0xf6 => assert Crc32TableRowF(0xf6) == Step8(0xf6000000);
    case 0xf7 => assert Crc32TableRowF(0xf7) == Step8(0xf7000000);
    case 0xf8 => assert Crc32TableRowF(0xf8) == Step8(0xf8000000);
    case 0xf9 => assert Crc32TableRowF(0xf9) == Step8(0xf9000000);
    case 0xfa => assert Crc32TableRowF(0xfa) == Step8(0xfa000000);
    case 0xfb => assert Crc32TableRowF(0xfb) == Step8(0xfb000000);
    case 0xfc => assert Crc32TableRowF(0xfc) == Step8(0xfc000000);
    case 0xfd => assert Crc32TableRowF(0xfd) == Step8(0xfd000000);
    case 0xfe => assert Crc32TableRowF(0xfe) == Step8(0xfe000000);
    case 0xff => assert Crc32TableRowF(0xff) == Step8(0xff000000);
    case _ =>
  }

  /** crc8_table */
  function Crc8Table(i: bv8): bv8 {
    match i >> 4
    case 0x0 => Crc8TableRow0(i)
    case 0x1 => Crc8TableRow1(i)
    case 0x2 => Crc8TableRow2(i)
    case 0x3 => Crc8TableRow3(i)
    case 0x4 => Crc8TableRow4(i)
    case 0x5 => Crc8TableRow5(i)
    case 0x6 => Crc8TableRow6(i)
    case 0x7 => Crc8TableRow7(i)
    case 0x8 => Crc8TableRow8(i)
    case 0x9 => Crc8TableRow9(i)
    case 0xa => Crc8TableRowA(i)
    case 0xb => Crc8TableRowB(i)
    case 0xc => Crc8TableRowC(i)
    case 0xd => Crc8TableRowD(i)
    case 0xe => Crc8TableRowE(i)
    case _ => Crc8TableRowF(i)
  }

  lemma Crc8TableOk(i: bv8)
    ensures Crc8Table(i) == ShortStep8(i)
  {
    hide ShortStep8;
    match i >> 4
    case 0x0 => Crc8TableRow0Ok(i);
    case 0x1 => Crc8TableRow1Ok(i);
    case 0x2 => Crc8TableRow2Ok(i);
    case 0x3 => Crc8TableRow3Ok(i);
    case 0x4 => Crc8TableRow4Ok(i);
    case 0x5 => Crc8TableRow5Ok(i);
    case 0x6 => Crc8TableRow6Ok(i);
    case 0x7 => Crc8TableRow7Ok(i);
    case 0x8 => Crc8TableRow8Ok(i);
    case 0x9 => Crc8TableRow9Ok(i);
    case 0xa => Crc8TableRowAOk(i);
    case 0xb => Crc8TableRowBOk(i);
    case 0xc => Crc8TableRowCOk(i);
    case 0xd => Crc8TableRowDOk(i);
    case 0xe => Crc8TableRowEOk(i);
    case 0xf => Crc8TableRowFOk(i);
    case _ =>
  }

  function Crc8TableRow0(i: bv8): bv8 {
    match i
    case 0x00 => 0x00 case 0x01 => 0xd5 case 0x02 => 0x7f case 0x03 => 0xaa case 0x04 => 0xfe case 0x05 => 0x2b case 0x06 => 0x81 case 0x07 => 0x54
    case 0x08 => 0x29 case 0x09 => 0xfc case 0x0a => 0x56 case 0x0b => 0x83 case 0x0c => 0xd7 case 0x0d => 0x02 case 0x0e => 0xa8 case _ => 0x7d
  }

  lemma Crc8TableRow0Ok(i: bv8)
    requires i >> 4 == 0x0
    ensures Crc8TableRow0(i) == ShortStep8(i)
  {
    match i
    case 0x00 => assert Crc8TableRow0(0x00) == ShortStep8(0x00);
    case 0x01 => assert Crc8TableRow0(0x01) == ShortStep8(0x01);
    case 0x02 => assert Crc8TableRow0(0x02) == ShortStep8(0x02);
    case 0x03 => assert Crc8TableRow0(0x03) == ShortStep8(0x03);
    case 0x04 => assert Crc8TableRow0(0x04) == ShortStep8(0x04);
    case 0x05 => assert Crc8TableRow0(0x05) == ShortStep8(0x05);
    case 0x06 => assert Crc8TableRow0(0x06) == ShortStep8(0x06);
    case 0x07 => assert Crc8TableRow0(0x07) == ShortStep8(0x07);
    case 0x08 => assert Crc8TableRow0(0x08) == ShortStep8(0x08);
    case 0x09 => assert Crc8TableRow0(0x09) == ShortStep8(0x09);
    case 0x0a => assert Crc8TableRow0(0x0a) == ShortStep8(0x0a);
    case 0x0b => assert Crc8TableRow0(0x0b) == ShortStep8(0x0b);
    case 0x0c => assert Crc8TableRow0(0x0c) == ShortStep8(0x0c);
    case 0x0d => assert Crc8TableRow0(0x0d) == ShortStep8(0x0d);
    case 0x0e => assert Crc8TableRow0(0x0e) == ShortStep8(0x0e);
    case 0x0f => assert Crc8TableRow0(0x0f) == ShortStep8(0x0f);
    case _ =>
  }

  function Crc8TableRow1(i: bv8): bv8 {
    match i
    case 0x10 => 0x52 case 0x11 => 0x87 case 0x12 => 0x2d case 0x13 => 0xf8 case 0x14 => 0xac case 0x15 => 0x79 case 0x16 => 0xd3 case 0x17 => 0x06
    case 0x18 => 0x7b case 0x19 => 0xae case 0x1a => 0x04 case 0x1b => 0xd1 case 0x1c => 0x85 case 0x1d => 0x50 case 0x1e => 0xfa case _ => 0x2f
  }

  lemma Crc8TableRow1Ok(i: bv8)
    requires i >> 4 == 0x1
    ensures Crc8TableRow1(i) == ShortStep8(i)
  {
    match i
    case 0x10 => assert Crc8TableRow1(0x10) == ShortStep8(0x10);
    case 0x11 => assert Crc8TableRow1(0x11) == ShortStep8(0x11);
    case 0x12 => assert Crc8TableRow1(0x12) == ShortStep8(0x12);
    case 0x13 => assert Crc8TableRow1(0x13) == ShortStep8(0x13);
    case 0x14 => assert Crc8TableRow1(0x14) == ShortStep8(0x14);
    case 0x15 => assert Crc8TableRow1(0x15) == ShortStep8(0x15);
    case 0x16 => assert Crc8TableRow1(0x16) == ShortStep8(0x16);
    case 0x17 => assert Crc8TableRow1(0x17) == ShortStep8(0x17);
    case 0x18 => assert Crc8TableRow1(0x18) == ShortStep8(0x18);
    case 0x19 => assert Crc8TableRow1(0x19) == ShortStep8(0x19);
    case 0x1a => assert Crc8TableRow1(0x1a) == ShortStep8(0x1a);
    case 0x1b => assert Crc8TableRow1(0x1b) == ShortStep8(0x1b);
    case 0x1c => assert Crc8TableRow1(0x1c) == ShortStep8(0x1c);
    case 0x1d => assert Crc8TableRow1(0x1d) == ShortStep8(0x1d);
    case 0x1e => assert Crc8TableRow1(0x1e) == ShortStep8(0x1e);
    case 0x1f => assert Crc8TableRow1(0x1f) == ShortStep8(0x1f);
    case _ =>
  }

  function Crc8TableRow2(i: bv8): bv8 {
    match i
    case 0x20 => 0xa4 case 0x21 => 0x71 case 0x22 => 0xdb case 0x23 => 0x0e case 0x24 => 0x5a case 0x25 => 0x8f case 0x26 => 0x25 case 0x27 => 0xf0
    case 0x28 => 0x8d case 0x29 => 0x58 case 0x2a => 0xf2 case 0x2b => 0x27 case 0x2c => 0x73 case 0x2d => 0xa6 case 0x2e => 0x0c case _ => 0xd9
  }

  lemma Crc8TableRow2Ok(i: bv8)
    requires i >> 4 == 0x2
    ensures Crc8TableRow2(i) == ShortStep8(i)
  {
    match i
    case 0x20 => assert Crc8TableRow2(0x20) == ShortStep8(0x20);
    case 0x21 => assert Crc8TableRow2(0x21) == ShortStep8(0x21);
    case 0x22 => assert Crc8TableRow2(0x22) == ShortStep8(0x22);
    case 0x23 => assert Crc8TableRow2(0x23) == ShortStep8(0x23);
    case 0x24 => assert Crc8TableRow2(0x24) == ShortStep8(0x24);
    case 0x25 => assert Crc8TableRow2(0x25) == ShortStep8(0x25);
    case 0x26 => assert Crc8TableRow2(0x26) == ShortStep8(0x26);
    case 0x27 => assert Crc8TableRow2(0x27) == ShortStep8(0x27);
    case 0x28 => assert Crc8TableRow2(0x28) == ShortStep8(0x28);
    case 0x29 => assert Crc8TableRow2(0x29) == ShortStep8(0x29);
    case 0x2a => assert Crc8TableRow2(0x2a) == ShortStep8(0x2a);
    case 0x2b => assert Crc8TableRow2(0x2b) == ShortStep8(0x2b);
    case 0x2c => assert Crc8TableRow2(0x2c) == ShortStep8(0x2c);
    case 0x2d => assert Crc8TableRow2(0x2d) == ShortStep8(0x2d);
    case 0x2e => assert Crc8TableRow2(0x2e) == ShortStep8(0x2e);
    case 0x2f => assert Crc8TableRow2(0x2f) == ShortStep8(0x2f);
    case _ =>
  }

  function Crc8TableRow3(i: bv8): bv8 {
    match i
    case 0x30 => 0xf6 case 0x31 => 0x23 case 0x32 => 0x89 case 0x33 => 0x5c case 0x34 => 0x08 case 0x35 => 0xdd case 0x36 => 0x77 case 0x37 => 0xa2
    case 0x38 => 0xdf case 0x39 => 0x0a case 0x3a => 0xa0 case 0x3b => 0x75 case 0x3c => 0x21 case 0x3d => 0xf4 case 0x3e => 0x5e case _ => 0x8b
  }

  lemma Crc8TableRow3Ok(i: bv8)
    requires i >> 4 == 0x3
    ensures Crc8TableRow3(i) == ShortStep8(i)
  {
    match i
    case 0x30 => assert Crc8TableRow3(0x30) == ShortStep8(0x30);
    case 0x31 => assert Crc8TableRow3(0x31) == ShortStep8(0x31);
    case 0x32 => assert Crc8TableRow3(0x32) == ShortStep8(0x32);
    case 0x33 => assert Crc8TableRow3(0x33) == ShortStep8(0x33);
    case 0x34 => assert Crc8TableRow3(0x34) == ShortStep8(0x34);
    case 0x35 => assert Crc8TableRow3(0x35) == ShortStep8(0x35);
    case 0x36 => assert Crc8TableRow3(0x36) == ShortStep8(0x36);
    case 0x37 => assert Crc8TableRow3(0x37) == ShortStep8(0x37);
    case 0x38 => assert Crc8TableRow3(0x38) == ShortStep8(0x38);
    case 0x39 => assert Crc8TableRow3(0x39) == ShortStep8(0x39);
    case 0x3a => assert Crc8TableRow3(0x3a) == ShortStep8(0x3a);
    case 0x3b => assert Crc8TableRow3(0x3b) == ShortStep8(0x3b);
    case 0x3c => assert Crc8TableRow3(0x3c) == ShortStep8(0x3c);
    case 0x3d => assert Crc8TableRow3(0x3d) == ShortStep8(0x3d);
    case 0x3e => assert Crc8TableRow3(0x3e) == ShortStep8(0x3e);
    case 0x3f => assert Crc8TableRow3(0x3f) == ShortStep8(0x3f);
    case _ =>
  }

  function Crc8TableRow4(i: bv8): bv8 {
    match i
    case 0x40 => 0x9d case 0x41 => 0x48 case 0x42 => 0xe2 case 0x43 => 0x37 case 0x44 => 0x63 case 0x45 => 0xb6 case 0x46 => 0x1c case 0x47 => 0xc9
    case 0x48 => 0xb4 case 0x49 => 0x61 case 0x4a => 0xcb case 0x4b => 0x1e case 0x4c => 0x4a case 0x4d => 0x9f case 0x4e => 0x35 case _ => 0xe0
  }

  lemma Crc8TableRow4Ok(i: bv8)
    requires i >> 4 == 0x4
    ensures Crc8TableRow4(i) == ShortStep8(i)
  {
    match i
    case 0x40 => assert Crc8TableRow4(0x40) == ShortStep8(0x40);
    case 0x41 => assert Crc8TableRow4(0x41) == ShortStep8(0x41);
    case 0x42 => assert Crc8TableRow4(0x42) == ShortStep8(0x42);
    case 0x43 => assert Crc8TableRow4(0x43) == ShortStep8(0x43);
    case 0x44 => assert Crc8TableRow4(0x44) == ShortStep8(0x44);
    case 0x45 => assert Crc8TableRow4(0x45) == ShortStep8(0x45);
    case 0x46 => assert Crc8TableRow4(0x46) == ShortStep8(0x46);
    case 0x47 => assert Crc8TableRow4(0x47) == ShortStep8(0x47);
    case 0x48 => assert Crc8TableRow4(0x48) == ShortStep8(0x48);
    case 0x49 => assert Crc8TableRow4(0x49) == ShortStep8(0x49);
    case 0x4a => assert Crc8TableRow4(0x4a) == ShortStep8(0x4a);
    case 0x4b => assert Crc8TableRow4(0x4b) == ShortStep8(0x4b);
    case 0x4c => assert Crc8TableRow4(0x4c) == ShortStep8(0x4c);
    case 0x4d => assert Crc8TableRow4(0x4d) == ShortStep8(0x4d);
    case 0x4e => assert Crc8TableRow4(0x4e) == ShortStep8(0x4e);
    case 0x4f => assert Crc8TableRow4(0x4f) == ShortStep8(0x4f);
    case _ =>
  }

  function Crc8TableRow5(i: bv8): bv8 {
    match i
    case 0x50 => 0xcf case 0x51 => 0x1a case 0x52 => 0xb0 case 0x53 => 0x65 case 0x54 => 0x31 case 0x55 => 0xe4 case 0x56 => 0x4e case 0x57 => 0x9b
    case 0x58 => 0xe6 case 0x59 => 0x33 case 0x5a => 0x99 case 0x5b => 0x4c case 0x5c => 0x18 case 0x5d => 0xcd case 0x5e => 0x67 case _ => 0xb2
  }

  lemma Crc8TableRow5Ok(i: bv8)
    requires i >> 4 == 0x5
    ensures Crc8TableRow5(i) == ShortStep8(i)
  {
    match i
    case 0x50 => assert Crc8TableRow5(0x50) == ShortStep8(0x50);
    case 0x51 => assert Crc8TableRow5(0x51) == ShortStep8(0x51);
    case 0x52 => assert Crc8TableRow5(0x52) == ShortStep8(0x52);
    case 0x53 => assert Crc8TableRow5(0x53) == ShortStep8(0x53);
    case 0x54 => assert Crc8TableRow5(0x54) == ShortStep8(0x54);
    case 0x55 => assert Crc8TableRow5(0x55) == ShortStep8(0x55);
    case 0x56 => assert Crc8TableRow5(0x56) == ShortStep8(0x56);
    case 0x57 => assert Crc8TableRow5(0x57) == ShortStep8(0x57);
    case 0x58 => assert Crc8TableRow5(0x58) == ShortStep8(0x58);
    case 0x59 => assert Crc8TableRow5(0x59) == ShortStep8(0x59);
    case 0x5a => assert Crc8TableRow5(0x5a) == ShortStep8(0x5a);
    case 0x5b => assert Crc8TableRow5(0x5b) == ShortStep8(0x5b);
    case 0x5c => assert Crc8TableRow5(0x5c) == ShortStep8(0x5c);
    case 0x5d => assert Crc8TableRow5(0x5d) == ShortStep8(0x5d);
    case 0x5e => assert Crc8TableRow5(0x5e) == ShortStep8(0x5e);
    case 0x5f => assert Crc8TableRow5(0x5f) == ShortStep8(0x5f);
    case _ =>
  }

  function Crc8TableRow6(i: bv8): bv8 {
    match i
    case 0x60 => 0x39 case 0x61 => 0xec case 0x62 => 0x46 case 0x63 => 0x93 case 0x64 => 0xc7 case 0x65 => 0x12 case 0x66 => 0xb8 case 0x67 => 0x6d
    case 0x68 => 0x10 case 0x69 => 0xc5 case 0x6a => 0x6f case 0x6b => 0xba case 0x6c => 0xee case 0x6d => 0x3b case 0x6e => 0x91 case _ => 0x44
  }

  lemma Crc8TableRow6Ok(i: bv8)
    requires i >> 4 == 0x6
    ensures Crc8TableRow6(i) == ShortStep8(i)
  {
    match i
    case 0x60 => assert Crc8TableRow6(0x60) == ShortStep8(0x60);
    case 0x61 => assert Crc8TableRow6(0x61) == ShortStep8(0x61);
    case 0x62 => assert Crc8TableRow6(0x62) == ShortStep8(0x62);
    case 0x63 => assert Crc8TableRow6(0x63) == ShortStep8(0x63);
    case 0x64 => assert Crc8TableRow6(0x64) == ShortStep8(0x64);
    case 0x65 => assert Crc8TableRow6(0x65) == ShortStep8(0x65);
    case 0x66 => assert Crc8TableRow6(0x66) == ShortStep8(0x66);
    case 0x67 => assert Crc8TableRow6(0x67) == ShortStep8(0x67);
    case 0x68 => assert Crc8TableRow6(0x68) == ShortStep8(0x68);
    case 0x69 => assert Crc8TableRow6(0x69) == ShortStep8(0x69);
    case 0x6a => assert Crc8TableRow6(0x6a) == ShortStep8(0x6a);
    case 0x6b => assert Crc8TableRow6(0x6b) == ShortStep8(0x6b);
    case 0x6c => assert Crc8TableRow6(0x6c) == ShortStep8(0x6c);
    case 0x6d => assert Crc8TableRow6(0x6d) == ShortStep8(0x6d);
    case 0x6e => assert Crc8TableRow6(0x6e) == ShortStep8(0x6e);
    case 0x6f => assert Crc8TableRow6(0x6f) == ShortStep8(0x6f);
    case _ =>
  }

  function Crc8TableRow7(i: bv8): bv8 {
    match i
    case 0x70 => 0x6b case 0x71 => 0xbe case 0x72 => 0x14 case 0x73 => 0xc1 case 0x74 => 0x95 case 0x75 => 0x40 case 0x76 => 0xea case 0x77 => 0x3f
    case 0x78 => 0x42 case 0x79 => 0x97 case 0x7a => 0x3d case 0x7b => 0xe8 case 0x7c => 0xbc case 0x7d => 0x69 case 0x7e => 0xc3 case _ => 0x16
  }

  lemma Crc8TableRow7Ok(i: bv8)
    requires i >> 4 == 0x7
    ensures Crc8TableRow7(i) == ShortStep8(i)
  {
    match i
    case 0x70 => assert Crc8TableRow7(0x70) == ShortStep8(0x70);
    case 0x71 => assert Crc8TableRow7(0x71) == ShortStep8(0x71);
    case 0x72 => assert Crc8TableRow7(0x72) == ShortStep8(0x72);
    case 0x73 => assert Crc8TableRow7(0x73) == ShortStep8(0x73);
    case 0x74 => assert Crc8TableRow7(0x74) == ShortStep8(0x74);
    case 0x75 => assert Crc8TableRow7(0x75) == ShortStep8(0x75);
    case 0x76 => assert Crc8TableRow7(0x76) == ShortStep8(0x76);
    case 0x77 => assert Crc8TableRow7(0x77) == ShortStep8(0x77);
    case 0x78 => assert Crc8TableRow7(0x78) == ShortStep8(0x78);
    case 0x79 => assert Crc8TableRow7(0x79) == ShortStep8(0x79);
    case 0x7a => assert Crc8TableRow7(0x7a) == ShortStep8(0x7a);
    case 0x7b => assert Crc8TableRow7(0x7b) == ShortStep8(0x7b);
    case 0x7c => assert Crc8TableRow7(0x7c) == ShortStep8(0x7c);
    case 0x7d => assert Crc8TableRow7(0x7d) == ShortStep8(0x7d);
    case 0x7e => assert Crc8TableRow7(0x7e) == ShortStep8(0x7e);
    case 0x7f => assert Crc8TableRow7(0x7f) == ShortStep8(0x7f);
    case _ =>
  }

  function Crc8TableRow8(i: bv8): bv8 {
    match i
    case 0x80 => 0xef case 0x81 => 0x3a case 0x82 => 0x90 case 0x83 => 0x45 case 0x84 => 0x11 case 0x85 => 0xc4 case 0x86 => 0x6e case 0x87 => 0xbb
    case 0x88 => 0xc6 case 0x89 => 0x13 case 0x8a => 0xb9 case 0x8b => 0x6c case 0x8c => 0x38 case 0x8d => 0xed case 0x8e => 0x47 case _ => 0x92
  }

  lemma Crc8TableRow8Ok(i: bv8)
    requires i >> 4 == 0x8
    ensures Crc8TableRow8(i) == ShortStep8(i)
  {
    match i
    case 0x80 => assert Crc8TableRow8(0x80) == ShortStep8(0x80);
    case 0x81 => assert Crc8TableRow8(0x81) == ShortStep8(0x81);
    case 0x82 => assert Crc8TableRow8(0x82) == ShortStep8(0x82);
    case 0x83 => assert Crc8TableRow8(0x83) == ShortStep8(0x83);
    case 0x84 => assert Crc8TableRow8(0x84) == ShortStep8(0x84);
    case 0x85 => assert Crc8TableRow8(0x85) == ShortStep8(0x85);
    case 0x86 => assert Crc8TableRow8(0x86) == ShortStep8(0x86);
    case 0x87 => assert Crc8TableRow8(0x87) == ShortStep8(0x87);
    case 0x88 => assert Crc8TableRow8(0x88) == ShortStep8(0x88);
    case 0x89 => assert Crc8TableRow8(0x89) == ShortStep8(0x89);
    case 0x8a => assert Crc8TableRow8(0x8a) == ShortStep8(0x8a);
    case 0x8b => assert Crc8TableRow8(0x8b) == ShortStep8(0x8b);
    case 0x8c => assert Crc8TableRow8(0x8c) == ShortStep8(0x8c);
    case 0x8d => assert Crc8TableRow8(0x8d) == ShortStep8(0x8d);
    case 0x8e => assert Crc8TableRow8(0x8e) == ShortStep8(0x8e);
    case 0x8f => assert Crc8TableRow8(0x8f) == ShortStep8(0x8f);
    case _ =>
  }

  function Crc8TableRow9(i: bv8): bv8 {
    match i
    case 0x90 => 0xbd case 0x91 => 0x68 case 0x92 => 0xc2 case 0x93 => 0x17 case 0x94 => 0x43 case 0x95 => 0x96 case 0x96 => 0x3c case 0x97 => 0xe9
    case 0x98 => 0x94 case 0x99 => 0x41 case 0x9a => 0xeb case 0x9b => 0x3e case 0x9c => 0x6a case 0x9d => 0xbf case 0x9e => 0x15 case _ => 0xc0
  }

  lemma Crc8TableRow9Ok(i: bv8)
    requires i >> 4 == 0x9
    ensures Crc8TableRow9(i) == ShortStep8(i)
  {
    match i
    case 0x90 => assert Crc8TableRow9(0x90) == ShortStep8(0x90);
    case 0x91 => assert Crc8TableRow9(0x91) == ShortStep8(0x91);
    case 0x92 => assert Crc8TableRow9(0x92) == ShortStep8(0x92);
    case 0x93 => assert Crc8TableRow9(0x93) == ShortStep8(0x93);
    case 0x94 => assert Crc8TableRow9(0x94) == ShortStep8(0x94);
    case 0x95 => assert Crc8TableRow9(0x95) == ShortStep8(0x95);
    case 0x96 => assert Crc8TableRow9(0x96) == ShortStep8(0x96);
    case 0x97 => assert Crc8TableRow9(0x97) == ShortStep8(0x97);
    case 0x98 => assert Crc8TableRow9(0x98) == ShortStep8(0x98);
    case 0x99 => assert Crc8TableRow9(0x99) == ShortStep8(0x99);
    case 0x9a => assert Crc8TableRow9(0x9a) == ShortStep8(0x9a);
    case 0x9b => assert Crc8TableRow9(0x9b) == ShortStep8(0x9b);
    case 0x9c => assert Crc8TableRow9(0x9c) == ShortStep8(0x9c);
    case 0x9d => assert Crc8TableRow9(0x9d) == ShortStep8(0x9d);
    case 0x9e => assert Crc8TableRow9(0x9e) == ShortStep8(0x9e);
    case 0x9f => assert Crc8TableRow9(0x9f) == ShortStep8(0x9f);
    case _ =>
  }

  function Crc8TableRowA(i: bv8): bv8 {
    match i
    case 0xa0 => 0x4b case 0xa1 => 0x9e case 0xa2 => 0x34 case 0xa3 => 0xe1 case 0xa4 => 0xb5 case 0xa5 => 0x60 case 0xa6 => 0xca case 0xa7 => 0x1f
    case 0xa8 => 0x62 case 0xa9 => 0xb7 case 0xaa => 0x1d case 0xab => 0xc8 case 0xac => 0x9c case 0xad => 0x49 case 0xae => 0xe3 case _ => 0x36
  }

  lemma Crc8TableRowAOk(i: bv8)
    requires i >> 4 == 0xa
    ensures Crc8TableRowA(i) == ShortStep8(i)
  {
    match i
    case 0xa0 => assert Crc8TableRowA(0xa0) == ShortStep8(0xa0);
    case 0xa1 => assert Crc8TableRowA(0xa1) == ShortStep8(0xa1);
    case 0xa2 => assert Crc8TableRowA(0xa2) == ShortStep8(0xa2);
    case 0xa3 => assert Crc8TableRowA(0xa3) == ShortStep8(0xa3);
    case 0xa4 => assert Crc8TableRowA(0xa4) == ShortStep8(0xa4);
    case 0xa5 => assert Crc8TableRowA(0xa5) == ShortStep8(0xa5);
    case 0xa6 => assert Crc8TableRowA(0xa6) == ShortStep8(0xa6);
    case 0xa7 => assert Crc8TableRowA(0xa7) == ShortStep8(0xa7);
    case 0xa8 => assert Crc8TableRowA(0xa8) == ShortStep8(0xa8);
    case 0xa9 => assert Crc8TableRowA(0xa9) == ShortStep8(0xa9);
    case 0xaa => assert Crc8TableRowA(0xaa) == ShortStep8(0xaa);
    case 0xab => assert Crc8TableRowA(0xab) == ShortStep8(0xab);
    case 0xac => assert Crc8TableRowA(0xac) == ShortStep8(0xac);
    case 0xad => assert Crc8TableRowA(0xad) == ShortStep8(0xad);
    case 0xae => assert Crc8TableRowA(0xae) == ShortStep8(0xae);
    case 0xaf => assert Crc8TableRowA(0xaf) == ShortStep8(0xaf);
    case _ =>
  }

  function Crc8TableRowB(i: bv8): bv8 {
    match i
    case 0xb0 => 0x19 case 0xb1 => 0xcc case 0xb2 => 0x66 case 0xb3 => 0xb3 case 0xb4 => 0xe7 case 0xb5 => 0x32 case 0xb6 => 0x98 case 0xb7 => 0x4d
    case 0xb8 => 0x30 case 0xb9 => 0xe5 case 0xba => 0x4f case 0xbb => 0x9a case 0xbc => 0xce case 0xbd => 0x1b case 0xbe => 0xb1 case _ => 0x64
  }

  lemma Crc8TableRowBOk(i: bv8)
    requires i >> 4 == 0xb
    ensures Crc8TableRowB(i) == ShortStep8(i)
  {
    match i
    case 0xb0 => assert Crc8TableRowB(0xb0) == ShortStep8(0xb0);
    case 0xb1 => assert Crc8TableRowB(0xb1) == ShortStep8(0xb1);
    case 0xb2 => assert Crc8TableRowB(0xb2) == ShortStep8(0xb2);
    case 0xb3 => assert Crc8TableRowB(0xb3) == ShortStep8(0xb3);
    case 0xb4 => assert Crc8TableRowB(0xb4) == ShortStep8(0xb4);
    case 0xb5 => assert Crc8TableRowB(0xb5) == ShortStep8(0xb5);
    case 0xb6 => assert Crc8TableRowB(0xb6) == ShortStep8(0xb6);
    case 0xb7 => assert Crc8TableRowB(0xb7) == ShortStep8(0xb7);
    case 0xb8 => assert Crc8TableRowB(0xb8) == ShortStep8(0xb8);
    case 0xb9 => assert Crc8TableRowB(0xb9) == ShortStep8(0xb9);
    case 0xba => assert Crc8TableRowB(0xba) == ShortStep8(0xba);
    case 0xbb => assert Crc8TableRowB(0xbb) == ShortStep8(0xbb);
    case 0xbc => assert Crc8TableRowB(0xbc) == ShortStep8(0xbc);
    case 0xbd => assert Crc8TableRowB(0xbd) == ShortStep8(0xbd);
    case 0xbe => assert Crc8TableRowB(0xbe) == ShortStep8(0xbe);
    case 0xbf => assert Crc8TableRowB(0xbf) == ShortStep8(0xbf);
    case _ =>
  }

  function Crc8TableRowC(i: bv8): bv8 {
    match i
    case 0xc0 => 0x72 case 0xc1 => 0xa7 case 0xc2 => 0x0d case 0xc3 => 0xd8 case 0xc4 => 0x8c case 0xc5 => 0x59 case 0xc6 => 0xf3 case 0xc7 => 0x26
    case 0xc8 => 0x5b case 0xc9 => 0x8e case 0xca => 0x24 case 0xcb => 0xf1 case 0xcc => 0xa5 case 0xcd => 0x70 case 0xce => 0xda case _ => 0x0f
  }

  lemma Crc8TableRowCOk(i: bv8)
    requires i >> 4 == 0xc
    ensures Crc8TableRowC(i) == ShortStep8(i)
  {
    match i
    case 0xc0 => assert Crc8TableRowC(0xc0) == ShortStep8(0xc0);
    case 0xc1 => assert Crc8TableRowC(0xc1) == ShortStep8(0xc1);
    case 0xc2 => assert Crc8TableRowC(0xc2) == ShortStep8(0xc2);
    case 0xc3 => assert Crc8TableRowC(0xc3) == ShortStep8(0xc3);
    case 0xc4 => assert Crc8TableRowC(0xc4) == ShortStep8(0xc4);
    case 0xc5 => assert Crc8TableRowC(0xc5) == ShortStep8(0xc5);
    case 0xc6 => assert Crc8TableRowC(0xc6) == ShortStep8(0xc6);
    case 0xc7 => assert Crc8TableRowC(0xc7) == ShortStep8(0xc7);
    case 0xc8 => assert Crc8TableRowC(0xc8) == ShortStep8(0xc8);
    case 0xc9 => assert Crc8TableRowC(0xc9) == ShortStep8(0xc9);
    case 0xca => assert Crc8TableRowC(0xca) == ShortStep8(0xca);
    case 0xcb => assert Crc8TableRowC(0xcb) == ShortStep8(0xcb);
    case 0xcc => assert Crc8TableRowC(0xcc) == ShortStep8(0xcc);
    case 0xcd => assert Crc8TableRowC(0xcd) == ShortStep8(0xcd);
    case 0xce => assert Crc8TableRowC(0xce) == ShortStep8(0xce);
    case 0xcf => assert Crc8TableRowC(0xcf) == ShortStep8(0xcf);
    case _ =>
  }

  function Crc8TableRowD(i: bv8): bv8 {
    match i
    case 0xd0 => 0x20 case 0xd1 => 0xf5 case 0xd2 => 0x5f case 0xd3 => 0x8a case 0xd4 => 0xde case 0xd5 => 0x0b case 0xd6 => 0xa1 case 0xd7 => 0x74
    case 0xd8 => 0x09 case 0xd9 => 0xdc case 0xda => 0x76 case 0xdb => 0xa3 case 0xdc => 0xf7 case 0xdd => 0x22 case 0xde => 0x88 case _ => 0x5d
  }

  lemma Crc8TableRowDOk(i: bv8)
    requires i >> 4 == 0xd
    ensures Crc8TableRowD(i) == ShortStep8(i)
  {
    match i
    case 0xd0 => assert Crc8TableRowD(0xd0) == ShortStep8(0xd0);
    case 0xd1 => assert Crc8TableRowD(0xd1) == ShortStep8(0xd1);
    case 0xd2 => assert Crc8TableRowD(0xd2) == ShortStep8(0xd2);
    case 0xd3 => assert Crc8TableRowD(0xd3) == ShortStep8(0xd3);
    case 0xd4 => assert Crc8TableRowD(0xd4) == ShortStep8(0xd4);
    case 0xd5 => assert Crc8TableRowD(0xd5) == ShortStep8(0xd5);
    case 0xd6 => assert Crc8TableRowD(0xd6) == ShortStep8(0xd6);
    case 0xd7 => assert Crc8TableRowD(0xd7) == ShortStep8(0xd7);
    case 0xd8 => assert Crc8TableRowD(0xd8) == ShortStep8(0xd8);
    case 0xd9 => assert Crc8TableRowD(0xd9) == ShortStep8(0xd9);
    case 0xda => assert Crc8TableRowD(0xda) == ShortStep8(0xda);
    case 0xdb => assert Crc8TableRowD(0xdb) == ShortStep8(0xdb);
    case 0xdc => assert Crc8TableRowD(0xdc) == ShortStep8(0xdc);
    case 0xdd => assert Crc8TableRowD(0xdd) == ShortStep8(0xdd);
    case 0xde => assert Crc8TableRowD(0xde) == ShortStep8(0xde);
    case 0xdf => assert Crc8TableRowD(0xdf) == ShortStep8(0xdf);
    case _ =>
  }

  function Crc8TableRowE(i: bv8): bv8 {
    match i
    case 0xe0 => 0xd6 case 0xe1 => 0x03 case 0xe2 => 0xa9 case 0xe3 => 0x7c case 0xe4 => 0x28 case 0xe5 => 0xfd case 0xe6 => 0x57 case 0xe7 => 0x82
    case 0xe8 => 0xff case 0xe9 => 0x2a case 0xea => 0x80 case 0xeb => 0x55 case 0xec => 0x01 case 0xed => 0xd4 case 0xee => 0x7e case _ => 0xab
  }

  lemma Crc8TableRowEOk(i: bv8)
    requires i >> 4 == 0xe
    ensures Crc8TableRowE(i) == ShortStep8(i)
  {
    match i
    case 0xe0 => assert Crc8TableRowE(0xe0) == ShortStep8(0xe0);
    case 0xe1 => assert Crc8TableRowE(0xe1) == ShortStep8(0xe1);
    case 0xe2 => assert Crc8TableRowE(0xe2) == ShortStep8(0xe2);
    case 0xe3 => assert Crc8TableRowE(0xe3) == ShortStep8(0xe3);
    case 0xe4 => assert Crc8TableRowE(0xe4) == ShortStep8(0xe4);
    case 0xe5 => assert Crc8TableRowE(0xe5) == ShortStep8(0xe5);
    case 0xe6 => assert Crc8TableRowE(0xe6) == ShortStep8(0xe6);
    case 0xe7 => assert Crc8TableRowE(0xe7) == ShortStep8(0xe7);
    case 0xe8 => assert Crc8TableRowE(0xe8) == ShortStep8(0xe8);
    case 0xe9 => assert Crc8TableRowE(0xe9) == ShortStep8(0xe9);
    case 0xea => assert Crc8TableRowE(0xea) == ShortStep8(0xea);
    case 0xeb => assert Crc8TableRowE(0xeb) == ShortStep8(0xeb);
    case 0xec => assert Crc8TableRowE(0xec) == ShortStep8(0xec);
    case 0xed => assert Crc8TableRowE(0xed) == ShortStep8(0xed);
    case 0xee => assert Crc8TableRowE(0xee) == ShortStep8(0xee);
    case 0xef => assert Crc8TableRowE(0xef) == ShortStep8(0xef);
    case _ =>
  }

  function Crc8TableRowF(i: bv8): bv8 {
    match i
    case 0xf0 => 0x84 case 0xf1 => 0x51 case 0xf2 => 0xfb case 0xf3 => 0x2e case 0xf4 => 0x7a case 0xf5 => 0xaf case 0xf6 => 0x05 case 0xf7 => 0xd0
    case 0xf8 => 0xad case 0xf9 => 0x78 case 0xfa => 0xd2 case 0xfb => 0x07 case 0xfc => 0x53 case 0xfd => 0x86 case 0xfe => 0x2c case _ => 0xf9
  }

  lemma Crc8TableRowFOk(i: bv8)
    requires i >> 4 == 0xf
    ensures Crc8TableRowF(i) == ShortStep8(i)
  {
    match i
    case 0xf0 => assert Crc8TableRowF(0xf0) == ShortStep8(0xf0);
    case 0xf1 => assert Crc8TableRowF(0xf1) == ShortStep8(0xf1);
    case 0xf2 => assert Crc8TableRowF(0xf2) == ShortStep8(0xf2);
    case 0xf3 => assert Crc8TableRowF(0xf3) == ShortStep8(0xf3);
    case 0xf4 => assert Crc8TableRowF(0xf4) == ShortStep8(0xf4);
    case 0xf5 => assert Crc8TableRowF(0xf5) == ShortStep8(0xf5);
    case 0xf6 => assert Crc8TableRowF(0xf6) == ShortStep8(0xf6);
    case 0xf7 => assert Crc8TableRowF(0xf7) == ShortStep8(0xf7);
    case 0xf8 => assert Crc8TableRowF(0xf8) == ShortStep8(0xf8);
    case 0xf9 => assert Crc8TableRowF(0xf9) == ShortStep8(0xf9);
    case 0xfa => assert Crc8TableRowF(0xfa) == ShortStep8(0xfa);
    case 0xfb => assert Crc8TableRowF(0xfb) == ShortStep8(0xfb);
    case 0xfc => assert Crc8TableRowF(0xfc) == ShortStep8(0xfc);
    case 0xfd => assert Crc8TableRowF(0xfd) == ShortStep8(0xfd);
    case 0xfe => assert Crc8TableRowF(0xfe) == ShortStep8(0xfe);
    case 0xff => assert Crc8TableRowF(0xff) == ShortStep8(0xff);
    case _ =>
  }
}
