/**
 * The CRC-16 of the Modbus RTU slave: polynomial 0xA001 (reflected 0x8005), initial value
 * 0xFFFF, no final XOR, transmitted low byte first (MODBUS over Serial Line V1.02,
 * section 2.5.1.2 and Appendix B, section 6.2.2).
 *
 * The reference definition is the bitwise algorithm of the standard (`BitCrc`); the firmware
 * folds each byte through a 256-entry lookup table (`TableCrc`). Every table entry is proved
 * to be the bitwise image of its index, and the two definitions are proved equal.
 */
module ModbusCrc {
  import opened Bytes

  /**
   * `k` bit steps of the reflected polynomial: each shifts the register right by one and XORs
   * 0xA001 into it when the bit shifted out was set (`0 - (p & 1)` is all ones exactly then).
   */
  function Steps(c: bv16, k: nat): bv16
  {
    if k == 0 then c else var p := Steps(c, k - 1); (p >> 1) ^ ((0 - (p & 1)) & 0xA001)
  }

  /** Eight bit steps: the processing of one byte once it has been XORed into the register. */
  function Shift8(c: bv16): bv16
  {
    Steps(c, 8)
  }

  /**
   * The 256-entry lookup table of the firmware, stored as 4 groups of 8 rows of 8 entries:
   * entry `i` is in group `i / 64`, row `(i / 8) % 8`, column `i % 8`.
   */
  const Rows: seq<seq<seq<bv16>>> := [
    [
      [0x0000, 0xC0C1, 0xC181, 0x0140, 0xC301, 0x03C0, 0x0280, 0xC241],
      [0xC601, 0x06C0, 0x0780, 0xC741, 0x0500, 0xC5C1, 0xC481, 0x0440],
      [0xCC01, 0x0CC0, 0x0D80, 0xCD41, 0x0F00, 0xCFC1, 0xCE81, 0x0E40],
      [0x0A00, 0xCAC1, 0xCB81, 0x0B40, 0xC901, 0x09C0, 0x0880, 0xC841],
      [0xD801, 0x18C0, 0x1980, 0xD941, 0x1B00, 0xDBC1, 0xDA81, 0x1A40],
      [0x1E00, 0xDEC1, 0xDF81, 0x1F40, 0xDD01, 0x1DC0, 0x1C80, 0xDC41],
      [0x1400, 0xD4C1, 0xD581, 0x1540, 0xD701, 0x17C0, 0x1680, 0xD641],
      [0xD201, 0x12C0, 0x1380, 0xD341, 0x1100, 0xD1C1, 0xD081, 0x1040]
    ],
    [
      [0xF001, 0x30C0, 0x3180, 0xF141, 0x3300, 0xF3C1, 0xF281, 0x3240],
      [0x3600, 0xF6C1, 0xF781, 0x3740, 0xF501, 0x35C0, 0x3480, 0xF441],
      [0x3C00, 0xFCC1, 0xFD81, 0x3D40, 0xFF01, 0x3FC0, 0x3E80, 0xFE41],
      [0xFA01, 0x3AC0, 0x3B80, 0xFB41, 0x3900, 0xF9C1, 0xF881, 0x3840],
      [0x2800, 0xE8C1, 0xE981, 0x2940, 0xEB01, 0x2BC0, 0x2A80, 0xEA41],
      [0xEE01, 0x2EC0, 0x2F80, 0xEF41, 0x2D00, 0xEDC1, 0xEC81, 0x2C40],
      [0xE401, 0x24C0, 0x2580, 0xE541, 0x2700, 0xE7C1, 0xE681, 0x2640],
      [0x2200, 0xE2C1, 0xE381, 0x2340, 0xE101, 0x21C0, 0x2080, 0xE041]
    ],
    [
      [0xA001, 0x60C0, 0x6180, 0xA141, 0x6300, 0xA3C1, 0xA281, 0x6240],
      [0x6600, 0xA6C1, 0xA781, 0x6740, 0xA501, 0x65C0, 0x6480, 0xA441],
      [0x6C00, 0xACC1, 0xAD81, 0x6D40, 0xAF01, 0x6FC0, 0x6E80, 0xAE41],
      [0xAA01, 0x6AC0, 0x6B80, 0xAB41, 0x6900, 0xA9C1, 0xA881, 0x6840],
      [0x7800, 0xB8C1, 0xB981, 0x7940, 0xBB01, 0x7BC0, 0x7A80, 0xBA41],
      [0xBE01, 0x7EC0, 0x7F80, 0xBF41, 0x7D00, 0xBDC1, 0xBC81, 0x7C40],
      [0xB401, 0x74C0, 0x7580, 0xB541, 0x7700, 0xB7C1, 0xB681, 0x7640],
      [0x7200, 0xB2C1, 0xB381, 0x7340, 0xB101, 0x71C0, 0x7080, 0xB041]
    ],
    [
      [0x5000, 0x90C1, 0x9181, 0x5140, 0x9301, 0x53C0, 0x5280, 0x9241],
      [0x9601, 0x56C0, 0x5780, 0x9741, 0x5500, 0x95C1, 0x9481, 0x5440],
      [0x9C01, 0x5CC0, 0x5D80, 0x9D41, 0x5F00, 0x9FC1, 0x9E81, 0x5E40],
      [0x5A00, 0x9AC1, 0x9B81, 0x5B40, 0x9901, 0x59C0, 0x5880, 0x9841],
      [0x8801, 0x48C0, 0x4980, 0x8941, 0x4B00, 0x8BC1, 0x8A81, 0x4A40],
      [0x4E00, 0x8EC1, 0x8F81, 0x4F40, 0x8D01, 0x4DC0, 0x4C80, 0x8C41],
      [0x4400, 0x84C1, 0x8581, 0x4540, 0x8701, 0x47C0, 0x4680, 0x8641],
      [0x8201, 0x42C0, 0x4380, 0x8341, 0x4100, 0x81C1, 0x8081, 0x4040]
    ]
  ]

  /** `crc_table[i]` */
  function Entry(i: bv8): bv16
  {
    Rows[(i >> 6) as int][((i >> 3) & 7) as int][(i & 7) as int]
  }

  lemma Block0()
    ensures forall i: bv8 | i < 32 :: Entry(i) == Shift8(i as bv16)
  {
    assert Entry(0) == Shift8(0);
    assert Entry(1) == Shift8(1);
    assert Entry(2) == Shift8(2);
    assert Entry(3) == Shift8(3);
    assert Entry(4) == Shift8(4);
    assert Entry(5) == Shift8(5);
    assert Entry(6) == Shift8(6);
    assert Entry(7) == Shift8(7);
    assert Entry(8) == Shift8(8);
    assert Entry(9) == Shift8(9);
    assert Entry(10) == Shift8(10);
    assert Entry(11) == Shift8(11);
    assert Entry(12) == Shift8(12);
    assert Entry(13) == Shift8(13);
    assert Entry(14) == Shift8(14);
    assert Entry(15) == Shift8(15);
    assert Entry(16) == Shift8(16);
    assert Entry(17) == Shift8(17);
    assert Entry(18) == Shift8(18);
    assert Entry(19) == Shift8(19);
    assert Entry(20) == Shift8(20);
    assert Entry(21) == Shift8(21);
    assert Entry(22) == Shift8(22);
    assert Entry(23) == Shift8(23);
    assert Entry(24) == Shift8(24);
    assert Entry(25) == Shift8(25);
    assert Entry(26) == Shift8(26);
    assert Entry(27) == Shift8(27);
    assert Entry(28) == Shift8(28);
    assert Entry(29) == Shift8(29);
    assert Entry(30) == Shift8(30);
    assert Entry(31) == Shift8(31);
  }

  lemma Block32()
    ensures forall i: bv8 | 32 <= i < 64 :: Entry(i) == Shift8(i as bv16)
  {
    assert Entry(32) == Shift8(32);
    assert Entry(33) == Shift8(33);
    assert Entry(34) == Shift8(34);
    assert Entry(35) == Shift8(35);
    assert Entry(36) == Shift8(36);
    assert Entry(37) == Shift8(37);
    assert Entry(38) == Shift8(38);
    assert Entry(39) == Shift8(39);
    assert Entry(40) == Shift8(40);
    assert Entry(41) == Shift8(41);
    assert Entry(42) == Shift8(42);
    assert Entry(43) == Shift8(43);
    assert Entry(44) == Shift8(44);
    assert Entry(45) == Shift8(45);
    assert Entry(46) == Shift8(46);
    assert Entry(47) == Shift8(47);
    assert Entry(48) == Shift8(48);
    assert Entry(49) == Shift8(49);
    assert Entry(50) == Shift8(50);
    assert Entry(51) == Shift8(51);
    assert Entry(52) == Shift8(52);
    assert Entry(53) == Shift8(53);
    assert Entry(54) == Shift8(54);
    assert Entry(55) == Shift8(55);
    assert Entry(56) == Shift8(56);
    assert Entry(57) == Shift8(57);
    assert Entry(58) == Shift8(58);
    assert Entry(59) == Shift8(59);
    assert Entry(60) == Shift8(60);
    assert Entry(61) == Shift8(61);
    assert Entry(62) == Shift8(62);
    assert Entry(63) == Shift8(63);
  }

  lemma Block64()
    ensures forall i: bv8 | 64 <= i < 96 :: Entry(i) == Shift8(i as bv16)
  {
    assert Entry(64) == Shift8(64);
    assert Entry(65) == Shift8(65);
    assert Entry(66) == Shift8(66);
    assert Entry(67) == Shift8(67);
    assert Entry(68) == Shift8(68);
    assert Entry(69) == Shift8(69);
    assert Entry(70) == Shift8(70);
    assert Entry(71) == Shift8(71);
    assert Entry(72) == Shift8(72);
    assert Entry(73) == Shift8(73);
    assert Entry(74) == Shift8(74);
    assert Entry(75) == Shift8(75);
    assert Entry(76) == Shift8(76);
    assert Entry(77) == Shift8(77);
    assert Entry(78) == Shift8(78);
    assert Entry(79) == Shift8(79);
    assert Entry(80) == Shift8(80);
    assert Entry(81) == Shift8(81);
    assert Entry(82) == Shift8(82);
    assert Entry(83) == Shift8(83);
    assert Entry(84) == Shift8(84);
    assert Entry(85) == Shift8(85);
    assert Entry(86) == Shift8(86);
    assert Entry(87) == Shift8(87);
    assert Entry(88) == Shift8(88);
    assert Entry(89) == Shift8(89);
    assert Entry(90) == Shift8(90);
    assert Entry(91) == Shift8(91);
    assert Entry(92) == Shift8(92);
    assert Entry(93) == Shift8(93);
    assert Entry(94) == Shift8(94);
    assert Entry(95) == Shift8(95);
  }

  lemma Block96()
    ensures forall i: bv8 | 96 <= i < 128 :: Entry(i) == Shift8(i as bv16)
  {
    assert Entry(96) == Shift8(96);
    assert Entry(97) == Shift8(97);
    assert Entry(98) == Shift8(98);
    assert Entry(99) == Shift8(99);
    assert Entry(100) == Shift8(100);
    assert Entry(101) == Shift8(101);
    assert Entry(102) == Shift8(102);
    assert Entry(103) == Shift8(103);
    assert Entry(104) == Shift8(104);
    assert Entry(105) == Shift8(105);
    assert Entry(106) == Shift8(106);
    assert Entry(107) == Shift8(107);
    assert Entry(108) == Shift8(108);
    assert Entry(109) == Shift8(109);
    assert Entry(110) == Shift8(110);
    assert Entry(111) == Shift8(111);
    assert Entry(112) == Shift8(112);
    assert Entry(113) == Shift8(113);
    assert Entry(114) == Shift8(114);
    assert Entry(115) == Shift8(115);
    assert Entry(116) == Shift8(116);
    assert Entry(117) == Shift8(117);
    assert Entry(118) == Shift8(118);
    assert Entry(119) == Shift8(119);
    assert Entry(120) == Shift8(120);
    assert Entry(121) == Shift8(121);
    assert Entry(122) == Shift8(122);
    assert Entry(123) == Shift8(123);
    assert Entry(124) == Shift8(124);
    assert Entry(125) == Shift8(125);
    assert Entry(126) == Shift8(126);
    assert Entry(127) == Shift8(127);
  }

  lemma Block128()
    ensures forall i: bv8 | 128 <= i < 160 :: Entry(i) == Shift8(i as bv16)
  {
    assert Entry(128) == Shift8(128);
    assert Entry(129) == Shift8(129);
    assert Entry(130) == Shift8(130);
    assert Entry(131) == Shift8(131);
    assert Entry(132) == Shift8(132);
    assert Entry(133) == Shift8(133);
    assert Entry(134) == Shift8(134);
    assert Entry(135) == Shift8(135);
    assert Entry(136) == Shift8(136);
    assert Entry(137) == Shift8(137);
    assert Entry(138) == Shift8(138);
    assert Entry(139) == Shift8(139);
    assert Entry(140) == Shift8(140);
    assert Entry(141) == Shift8(141);
    assert Entry(142) == Shift8(142);
    assert Entry(143) == Shift8(143);
    assert Entry(144) == Shift8(144);
    assert Entry(145) == Shift8(145);
    assert Entry(146) == Shift8(146);
    assert Entry(147) == Shift8(147);
    assert Entry(148) == Shift8(148);
    assert Entry(149) == Shift8(149);
    assert Entry(150) == Shift8(150);
    assert Entry(151) == Shift8(151);
    assert Entry(152) == Shift8(152);
    assert Entry(153) == Shift8(153);
    assert Entry(154) == Shift8(154);
    assert Entry(155) == Shift8(155);
    assert Entry(156) == Shift8(156);
    assert Entry(157) == Shift8(157);
    assert Entry(158) == Shift8(158);
    assert Entry(159) == Shift8(159);
  }

  lemma Block160()
    ensures forall i: bv8 | 160 <= i < 192 :: Entry(i) == Shift8(i as bv16)
  {
    assert Entry(160) == Shift8(160);
    assert Entry(161) == Shift8(161);
    assert Entry(162) == Shift8(162);
    assert Entry(163) == Shift8(163);
    assert Entry(164) == Shift8(164);
    assert Entry(165) == Shift8(165);
    assert Entry(166) == Shift8(166);
    assert Entry(167) == Shift8(167);
    assert Entry(168) == Shift8(168);
    assert Entry(169) == Shift8(169);
    assert Entry(170) == Shift8(170);
    assert Entry(171) == Shift8(171);
    assert Entry(172) == Shift8(172);
    assert Entry(173) == Shift8(173);
    assert Entry(174) == Shift8(174);
    assert Entry(175) == Shift8(175);
    assert Entry(176) == Shift8(176);
    assert Entry(177) == Shift8(177);
    assert Entry(178) == Shift8(178);
    assert Entry(179) == Shift8(179);
    assert Entry(180) == Shift8(180);
    assert Entry(181) == Shift8(181);
    assert Entry(182) == Shift8(182);
    assert Entry(183) == Shift8(183);
    assert Entry(184) == Shift8(184);
    assert Entry(185) == Shift8(185);
    assert Entry(186) == Shift8(186);
    assert Entry(187) == Shift8(187);
    assert Entry(188) == Shift8(188);
    assert Entry(189) == Shift8(189);
    assert Entry(190) == Shift8(190);
    assert Entry(191) == Shift8(191);
  }

  lemma Block192()
    ensures forall i: bv8 | 192 <= i < 224 :: Entry(i) == Shift8(i as bv16)
  {
    assert Entry(192) == Shift8(192);
    assert Entry(193) == Shift8(193);
    assert Entry(194) == Shift8(194);
    assert Entry(195) == Shift8(195);
    assert Entry(196) == Shift8(196);
    assert Entry(197) == Shift8(197);
    assert Entry(198) == Shift8(198);
    assert Entry(199) == Shift8(199);
    assert Entry(200) == Shift8(200);
    assert Entry(201) == Shift8(201);
    assert Entry(202) == Shift8(202);
    assert Entry(203) == Shift8(203);
    assert Entry(204) == Shift8(204);
    assert Entry(205) == Shift8(205);
    assert Entry(206) == Shift8(206);
    assert Entry(207) == Shift8(207);
    assert Entry(208) == Shift8(208);
    assert Entry(209) == Shift8(209);
    assert Entry(210) == Shift8(210);
    assert Entry(211) == Shift8(211);
    assert Entry(212) == Shift8(212);
    assert Entry(213) == Shift8(213);
    assert Entry(214) == Shift8(214);
    assert Entry(215) == Shift8(215);
    assert Entry(216) == Shift8(216);
    assert Entry(217) == Shift8(217);
    assert Entry(218) == Shift8(218);
    assert Entry(219) == Shift8(219);
    assert Entry(220) == Shift8(220);
    assert Entry(221) == Shift8(221);
    assert Entry(222) == Shift8(222);
    assert Entry(223) == Shift8(223);
  }

  lemma Block224()
    ensures forall i: bv8 | 224 <= i :: Entry(i) == Shift8(i as bv16)
  {
    assert Entry(224) == Shift8(224);
    assert Entry(225) == Shift8(225);
    assert Entry(226) == Shift8(226);
    assert Entry(227) == Shift8(227);
    assert Entry(228) == Shift8(228);
    assert Entry(229) == Shift8(229);
    assert Entry(230) == Shift8(230);
    assert Entry(231) == Shift8(231);
    assert Entry(232) == Shift8(232);
    assert Entry(233) == Shift8(233);
    assert Entry(234) == Shift8(234);
    assert Entry(235) == Shift8(235);
    assert Entry(236) == Shift8(236);
    assert Entry(237) == Shift8(237);
    assert Entry(238) == Shift8(238);
    assert Entry(239) == Shift8(239);
    assert Entry(240) == Shift8(240);
    assert Entry(241) == Shift8(241);
    assert Entry(242) == Shift8(242);
    assert Entry(243) == Shift8(243);
    assert Entry(244) == Shift8(244);
    assert Entry(245) == Shift8(245);
    assert Entry(246) == Shift8(246);
    assert Entry(247) == Shift8(247);
    assert Entry(248) == Shift8(248);
    assert Entry(249) == Shift8(249);
    assert Entry(250) == Shift8(250);
    assert Entry(251) == Shift8(251);
    assert Entry(252) == Shift8(252);
    assert Entry(253) == Shift8(253);
    assert Entry(254) == Shift8(254);
    assert Entry(255) == Shift8(255);
  }

  /** Every one of the 256 table entries is the eight-step bitwise image of its index. */
  lemma TableMatchesPolynomial()
    ensures forall i: bv8 :: Entry(i) == Shift8(i as bv16)
  {
    Block0(); Block32(); Block64(); Block96(); Block128(); Block160(); Block192(); Block224();
  }

  lemma TableEntry(i: bv8)
    ensures Entry(i) == Shift8(i as bv16)
  {
    TableMatchesPolynomial();
  }

  /** The bit steps are linear over GF(2). */
  lemma {:induction false} StepsLinear(x: bv16, y: bv16, k: nat)
    ensures Steps(x ^ y, k) == Steps(x, k) ^ Steps(y, k)
  {
    if k > 0 {
      StepsLinear(x, y, k - 1);
    }
  }

  lemma LinearAt(x: bv16, h: bv16, l: bv16)
    requires x == h ^ l
    ensures Shift8(x) == Shift8(h) ^ Shift8(l)
  {
    StepsLinear(h, l, 8);
  }

  /** A register whose low byte is zero never meets the polynomial in eight steps. */
  lemma HighByteShifts(x: bv16)
    ensures Shift8(x & 0xFF00) == x >> 8
  {
    var h := x & 0xFF00;
    assert Steps(h, 1) == h >> 1;
    assert Steps(h, 2) == h >> 2;
    assert Steps(h, 3) == h >> 3;
    assert Steps(h, 4) == h >> 4;
    assert Steps(h, 5) == h >> 5;
    assert Steps(h, 6) == h >> 6;
    assert Steps(h, 7) == h >> 7;
  }

  /** `(x ^ b) & 0xFF`: the table index of one byte step. */
  function TableIndex(x: bv16): bv8
  {
    (x & 0xFF) as bv8
  }

  lemma SplitLowByte(x: bv16)
    ensures x == (x & 0xFF00) ^ (TableIndex(x) as bv16)
  {
  }

  lemma ShiftSplit(x: bv16)
    ensures Shift8(x) == (x >> 8) ^ Shift8(TableIndex(x) as bv16)
  {
    SplitLowByte(x);
    LinearAt(x, x & 0xFF00, TableIndex(x) as bv16);
    HighByteShifts(x);
  }

  lemma XorByteKeepsHigh(crc: bv16, b: bv8)
    ensures (crc ^ (b as bv16)) >> 8 == crc >> 8
  {
  }

  /** One byte through the table: `crc = (crc >> 8) ^ crc_table[(crc ^ b) & 0xFF]`. */
  function TableStep(crc: bv16, b: bv8): bv16
  {
    (crc >> 8) ^ Entry(TableIndex(crc ^ (b as bv16)))
  }

  /** One byte bitwise, as the standard describes it: XOR it into the low byte, then eight bit steps. */
  function BitStep(crc: bv16, b: bv8): bv16
  {
    Shift8(crc ^ (b as bv16))
  }

  /** The table step and the bitwise step agree on every register value and every byte. */
  lemma TableStepIsBitStep(crc: bv16, b: bv8)
    ensures TableStep(crc, b) == BitStep(crc, b)
  {
    var x := crc ^ (b as bv16);
    ShiftSplit(x);
    TableEntry(TableIndex(x));
    XorByteKeepsHigh(crc, b);
  }

  /** The table-driven fold of the firmware over `data`, from 0xFFFF. */
  function TableCrc(data: seq<byte>): bv16
  {
    if |data| == 0 then 0xFFFF else TableStep(TableCrc(data[..|data| - 1]), data[|data| - 1] as bv8)
  }

  /** The bitwise fold of the standard over `data`, from 0xFFFF. */
  function BitCrc(data: seq<byte>): bv16
  {
    if |data| == 0 then 0xFFFF else BitStep(BitCrc(data[..|data| - 1]), data[|data| - 1] as bv8)
  }

  /** The lookup table computes exactly the CRC of the standard, on every input. */
  lemma {:induction false} TableCrcIsBitCrc(data: seq<byte>)
    ensures TableCrc(data) == BitCrc(data)
  {
    if |data| > 0 {
      TableCrcIsBitCrc(data[..|data| - 1]);
      TableStepIsBitStep(BitCrc(data[..|data| - 1]), data[|data| - 1] as bv8);
    }
  }

  /**
   * `BitCrc` behind `depth` recursive calls. The verifier unfolds a recursive call only a bounded
   * number of times, so frame-level proofs see `Crc16` as an opaque value and reason with
   * `TrailerRoundTrip` and `TrailerMatchesIff`; `Crc16Def` opens it where the value matters.
   */
  function Sealed(data: seq<byte>, depth: nat): u16
  {
    if depth == 0 then BitCrc(data) as int else Sealed(data, depth - 1)
  }
  /** The CRC-16/MODBUS value of `data`, as an unsigned 16-bit integer. */
  function Crc16(data: seq<byte>): u16
  {
    Sealed(data, 3)
  }
  /** `Crc16` is the bitwise CRC of the standard. */
  lemma Crc16Def(data: seq<byte>)
    ensures Crc16(data) == BitCrc(data) as int
  {
    assert Sealed(data, 3) == Sealed(data, 2);
    assert Sealed(data, 2) == Sealed(data, 1);
    assert Sealed(data, 1) == Sealed(data, 0);
  }

  /** The CRC of no bytes is the initial register value 0xFFFF. */
  lemma Crc16Empty()
    ensures Crc16([]) == 0xFFFF
  {
    Crc16Def([]);
  }

  /** The two bytes that carry CRC value `c` on the wire: low byte first. */
  function TrailerOf(c: u16): (t: seq<byte>)
    ensures |t| == 2 && Word(t[1], t[0]) == c
  {
    WordRoundTrip(c);
    [LowByte(c), HighByte(c)]
  }

  /** The trailer the sender appends to `body`. */
  function Trailer(body: seq<byte>): seq<byte>
  {
    TrailerOf(Crc16(body))
  }

  /**
   * The receiver's check: the last two bytes of `frame`, read as `lo | hi << 8`, equal the
   * CRC of the bytes before them.
   */
  predicate TrailerMatches(frame: seq<byte>)
    requires |frame| >= 2
  {
    Word(frame[|frame| - 1], frame[|frame| - 2]) == Crc16(frame[..|frame| - 2])
  }

  /** Reading two bytes back as `lo | hi << 8` gives `c` exactly when they are `TrailerOf(c)`. */
  lemma TrailerOfIff(frame: seq<byte>, c: u16)
    requires |frame| >= 2
    ensures Word(frame[|frame| - 1], frame[|frame| - 2]) == c <==> frame == frame[..|frame| - 2] + TrailerOf(c)
  {
    var n := |frame|;
    if Word(frame[n - 1], frame[n - 2]) == c {
      assert frame[n - 2] == LowByte(c) && frame[n - 1] == HighByte(c);
      assert frame == frame[..n - 2] + [frame[n - 2], frame[n - 1]];
    }
    if frame == frame[..n - 2] + TrailerOf(c) {
      assert frame[n - 2] == TrailerOf(c)[0] && frame[n - 1] == TrailerOf(c)[1];
    }
  }

  /** A frame passes the receiver's check exactly when it is a body followed by that body's trailer. */
  lemma TrailerMatchesIff(frame: seq<byte>)
    requires |frame| >= 2
    ensures TrailerMatches(frame) <==> frame == frame[..|frame| - 2] + Trailer(frame[..|frame| - 2])
  {
    TrailerOfIff(frame, Crc16(frame[..|frame| - 2]));
  }

  /** Appending the trailer of any body yields a frame that passes the receiver's check. */
  lemma TrailerRoundTrip(body: seq<byte>)
    ensures TrailerMatches(body + Trailer(body))
  {
    var f := body + Trailer(body);
    assert f[..|f| - 2] == body;
    TrailerMatchesIff(f);
  }

  /** A framed body: two bytes longer, the body unchanged in front, a trailer that passes the check. */
  lemma FrameLayout(body: seq<byte>)
    ensures var f := body + Trailer(body);
      |f| == |body| + 2 && f[..|body|] == body && TrailerMatches(f)
  {
    TrailerRoundTrip(body);
    var f := body + Trailer(body);
    assert f[..|body|] == body;
  }

  /**
   * `Modbus_CRC16(data, length)`: the firmware's table-driven loop over the first `len`
   * bytes of `buf`, proved to return the CRC of the standard.
   */
  method ComputeCrc16(buf: array<byte>, len: int) returns (crc: u16)
    requires 0 <= len <= buf.Length
    ensures crc == Crc16(buf[..len])
  {
    var c: bv16 := 0xFFFF;
    var i := 0;
    while i < len
      invariant 0 <= i <= len
      invariant c == TableCrc(buf[..i])
    {
      assert buf[..i + 1][..i] == buf[..i];
      c := TableStep(c, buf[i] as bv8);
      i := i + 1;
    }
    TableCrcIsBitCrc(buf[..len]);
    Crc16Def(buf[..len]);
    crc := c as int;
  }
}
