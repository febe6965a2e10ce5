/** Arithmetic in GF(256) with the primitive polynomial x^8 + x^4 + x^3 + x^2 + 1
    (0x11d), as the exponent and logarithm tables of js/qr.js build it, and as
    section 7.5.2 of ISO/IEC 18004:2015 uses it for Reed-Solomon codes. */
module GaloisField {
  import opened Bits

  /** One step of the exponent table: `val = x << 1`, and `val ^= 0x11d`
      when bit 8 is set. Bit 8 cancels in that xor, so on the eight bits the
      `Uint8Array` keeps the step is a doubling, xored with 0x1d on overflow. */
  function Step(v: bv8): bv8 {
    if v & 0x80 != 0 then (v + v) ^ 0x1d else v + v
  }

  /** v after n more steps. */
  function StepFrom(n: nat, v: bv8): bv8 {
    if n == 0 then v else StepFrom(n - 1, Step(v))
  }

  /** `gfExp[i]`: the i-th power of the generator, i steps from 1. */
  function Exp(i: nat): bv8 {
    StepFrom(i, 1)
  }

  lemma {:induction false} StepFromLast(n: nat, v: bv8)
    ensures StepFrom(n, Step(v)) == Step(StepFrom(n, v))
  {
    if n > 0 {
      StepFromLast(n - 1, Step(v));
    }
  }

  /** Each power is one step from the previous one. */
  lemma ExpStep(i: nat)
    requires i > 0
    ensures Exp(i) == Step(Exp(i - 1))
  {
    StepFromLast(i - 1, 1);
  }

  lemma StepNonZero(v: bv8)
    requires v != 0
    ensures Step(v) != 0
  {
  }

  /** Multiplication by the generator is invertible. */
  lemma StepInjective(a: bv8, b: bv8)
    requires Step(a) == Step(b)
    ensures a == b
  {
  }

  /** Every entry of the exponent table lies in 1..255. */
  lemma {:induction false} ExpNonZero(i: nat)
    ensures Exp(i) != 0 && Exp(i) as int != 0
  {
    if i > 0 {
      ExpNonZero(i - 1);
      ExpStep(i);
      StepNonZero(Exp(i - 1));
    }
  }

  /** No power of the generator strictly between lo and hi is 1. */
  predicate NoOneBetween(lo: nat, hi: nat)
    decreases hi - lo
  {
    lo >= hi || (Exp(lo) != 1 && NoOneBetween(lo + 1, hi))
  }

  lemma {:induction false} NoOneBetweenAt(lo: nat, hi: nat, d: nat)
    requires NoOneBetween(lo, hi) && lo <= d < hi
    ensures Exp(d) != 1
    decreases hi - lo
  {
    if lo < d {
      NoOneBetweenAt(lo + 1, hi, d);
    }
  }

  /* The chain below evaluates the exponent table sixteen entries at a time:
     it is the certificate that 2 has multiplicative order 255, that is, that
     0x11d is primitive. */

  lemma ExpChain0()
    ensures Exp(15) == 0x26
    ensures NoOneBetween(1, 16)
  {
    assert Exp(1) == 0x02 by { ExpStep(1); } assert Exp(2) == 0x04 by { ExpStep(2); } assert Exp(3) == 0x08 by { ExpStep(3); } assert Exp(4) == 0x10 by { ExpStep(4); }
    assert Exp(5) == 0x20 by { ExpStep(5); } assert Exp(6) == 0x40 by { ExpStep(6); } assert Exp(7) == 0x80 by { ExpStep(7); } assert Exp(8) == 0x1D by { ExpStep(8); }
    assert Exp(9) == 0x3A by { ExpStep(9); } assert Exp(10) == 0x74 by { ExpStep(10); } assert Exp(11) == 0xE8 by { ExpStep(11); } assert Exp(12) == 0xCD by { ExpStep(12); }
    assert Exp(13) == 0x87 by { ExpStep(13); } assert Exp(14) == 0x13 by { ExpStep(14); } assert Exp(15) == 0x26 by { ExpStep(15); }
    assert NoOneBetween(15, 16); assert NoOneBetween(14, 16); assert NoOneBetween(13, 16); assert NoOneBetween(12, 16);
    assert NoOneBetween(11, 16); assert NoOneBetween(10, 16); assert NoOneBetween(9, 16); assert NoOneBetween(8, 16);
    assert NoOneBetween(7, 16); assert NoOneBetween(6, 16); assert NoOneBetween(5, 16); assert NoOneBetween(4, 16);
    assert NoOneBetween(3, 16); assert NoOneBetween(2, 16); assert NoOneBetween(1, 16);
  }

  lemma ExpChain1()
    ensures Exp(31) == 0xC0
    ensures NoOneBetween(16, 32)
  {
    ExpChain0();
    assert Exp(16) == 0x4C by { ExpStep(16); } assert Exp(17) == 0x98 by { ExpStep(17); } assert Exp(18) == 0x2D by { ExpStep(18); } assert Exp(19) == 0x5A by { ExpStep(19); }
    assert Exp(20) == 0xB4 by { ExpStep(20); } assert Exp(21) == 0x75 by { ExpStep(21); } assert Exp(22) == 0xEA by { ExpStep(22); } assert Exp(23) == 0xC9 by { ExpStep(23); }
    assert Exp(24) == 0x8F by { ExpStep(24); } assert Exp(25) == 0x03 by { ExpStep(25); } assert Exp(26) == 0x06 by { ExpStep(26); } assert Exp(27) == 0x0C by { ExpStep(27); }
    assert Exp(28) == 0x18 by { ExpStep(28); } assert Exp(29) == 0x30 by { ExpStep(29); } assert Exp(30) == 0x60 by { ExpStep(30); } assert Exp(31) == 0xC0 by { ExpStep(31); }
    assert NoOneBetween(31, 32); assert NoOneBetween(30, 32); assert NoOneBetween(29, 32); assert NoOneBetween(28, 32);
    assert NoOneBetween(27, 32); assert NoOneBetween(26, 32); assert NoOneBetween(25, 32); assert NoOneBetween(24, 32);
    assert NoOneBetween(23, 32); assert NoOneBetween(22, 32); assert NoOneBetween(21, 32); assert NoOneBetween(20, 32);
    assert NoOneBetween(19, 32); assert NoOneBetween(18, 32); assert NoOneBetween(17, 32); assert NoOneBetween(16, 32);
  }

  lemma ExpChain2()
    ensures Exp(47) == 0x23
    ensures NoOneBetween(32, 48)
  {
    ExpChain1();
    assert Exp(32) == 0x9D by { ExpStep(32); } assert Exp(33) == 0x27 by { ExpStep(33); } assert Exp(34) == 0x4E by { ExpStep(34); } assert Exp(35) == 0x9C by { ExpStep(35); }
    assert Exp(36) == 0x25 by { ExpStep(36); } assert Exp(37) == 0x4A by { ExpStep(37); } assert Exp(38) == 0x94 by { ExpStep(38); } assert Exp(39) == 0x35 by { ExpStep(39); }
    assert Exp(40) == 0x6A by { ExpStep(40); } assert Exp(41) == 0xD4 by { ExpStep(41); } assert Exp(42) == 0xB5 by { ExpStep(42); } assert Exp(43) == 0x77 by { ExpStep(43); }
    assert Exp(44) == 0xEE by { ExpStep(44); } assert Exp(45) == 0xC1 by { ExpStep(45); } assert Exp(46) == 0x9F by { ExpStep(46); } assert Exp(47) == 0x23 by { ExpStep(47); }
    assert NoOneBetween(47, 48); assert NoOneBetween(46, 48); assert NoOneBetween(45, 48); assert NoOneBetween(44, 48);
    assert NoOneBetween(43, 48); assert NoOneBetween(42, 48); assert NoOneBetween(41, 48); assert NoOneBetween(40, 48);
    assert NoOneBetween(39, 48); assert NoOneBetween(38, 48); assert NoOneBetween(37, 48); assert NoOneBetween(36, 48);
    assert NoOneBetween(35, 48); assert NoOneBetween(34, 48); assert NoOneBetween(33, 48); assert NoOneBetween(32, 48);
  }

  lemma ExpChain3()
    ensures Exp(63) == 0xA1
    ensures NoOneBetween(48, 64)
  {
    ExpChain2();
    assert Exp(48) == 0x46 by { ExpStep(48); } assert Exp(49) == 0x8C by { ExpStep(49); } assert Exp(50) == 0x05 by { ExpStep(50); } assert Exp(51) == 0x0A by { ExpStep(51); }
    assert Exp(52) == 0x14 by { ExpStep(52); } assert Exp(53) == 0x28 by { ExpStep(53); } assert Exp(54) == 0x50 by { ExpStep(54); } assert Exp(55) == 0xA0 by { ExpStep(55); }
    assert Exp(56) == 0x5D by { ExpStep(56); } assert Exp(57) == 0xBA by { ExpStep(57); } assert Exp(58) == 0x69 by { ExpStep(58); } assert Exp(59) == 0xD2 by { ExpStep(59); }
    assert Exp(60) == 0xB9 by { ExpStep(60); } assert Exp(61) == 0x6F by { ExpStep(61); } assert Exp(62) == 0xDE by { ExpStep(62); } assert Exp(63) == 0xA1 by { ExpStep(63); }
    assert NoOneBetween(63, 64); assert NoOneBetween(62, 64); assert NoOneBetween(61, 64); assert NoOneBetween(60, 64);
    assert NoOneBetween(59, 64); assert NoOneBetween(58, 64); assert NoOneBetween(57, 64); assert NoOneBetween(56, 64);
    assert NoOneBetween(55, 64); assert NoOneBetween(54, 64); assert NoOneBetween(53, 64); assert NoOneBetween(52, 64);
    assert NoOneBetween(51, 64); assert NoOneBetween(50, 64); assert NoOneBetween(49, 64); assert NoOneBetween(48, 64);
  }

  lemma ExpChain4()
    ensures Exp(79) == 0xF0
    ensures NoOneBetween(64, 80)
  {
    ExpChain3();
    assert Exp(64) == 0x5F by { ExpStep(64); } assert Exp(65) == 0xBE by { ExpStep(65); } assert Exp(66) == 0x61 by { ExpStep(66); } assert Exp(67) == 0xC2 by { ExpStep(67); }
    assert Exp(68) == 0x99 by { ExpStep(68); } assert Exp(69) == 0x2F by { ExpStep(69); } assert Exp(70) == 0x5E by { ExpStep(70); } assert Exp(71) == 0xBC by { ExpStep(71); }
    assert Exp(72) == 0x65 by { ExpStep(72); } assert Exp(73) == 0xCA by { ExpStep(73); } assert Exp(74) == 0x89 by { ExpStep(74); } assert Exp(75) == 0x0F by { ExpStep(75); }
    assert Exp(76) == 0x1E by { ExpStep(76); } assert Exp(77) == 0x3C by { ExpStep(77); } assert Exp(78) == 0x78 by { ExpStep(78); } assert Exp(79) == 0xF0 by { ExpStep(79); }
    assert NoOneBetween(79, 80); assert NoOneBetween(78, 80); assert NoOneBetween(77, 80); assert NoOneBetween(76, 80);
    assert NoOneBetween(75, 80); assert NoOneBetween(74, 80); assert NoOneBetween(73, 80); assert NoOneBetween(72, 80);
    assert NoOneBetween(71, 80); assert NoOneBetween(70, 80); assert NoOneBetween(69, 80); assert NoOneBetween(68, 80);
    assert NoOneBetween(67, 80); assert NoOneBetween(66, 80); assert NoOneBetween(65, 80); assert NoOneBetween(64, 80);
  }

  lemma ExpChain5()
    ensures Exp(95) == 0xE2
    ensures NoOneBetween(80, 96)
  {
    ExpChain4();
    assert Exp(80) == 0xFD by { ExpStep(80); } assert Exp(81) == 0xE7 by { ExpStep(81); } assert Exp(82) == 0xD3 by { ExpStep(82); } assert Exp(83) == 0xBB by { ExpStep(83); }
    assert Exp(84) == 0x6B by { ExpStep(84); } assert Exp(85) == 0xD6 by { ExpStep(85); } assert Exp(86) == 0xB1 by { ExpStep(86); } assert Exp(87) == 0x7F by { ExpStep(87); }
    assert Exp(88) == 0xFE by { ExpStep(88); } assert Exp(89) == 0xE1 by { ExpStep(89); } assert Exp(90) == 0xDF by { ExpStep(90); } assert Exp(91) == 0xA3 by { ExpStep(91); }
    assert Exp(92) == 0x5B by { ExpStep(92); } assert Exp(93) == 0xB6 by { ExpStep(93); } assert Exp(94) == 0x71 by { ExpStep(94); } assert Exp(95) == 0xE2 by { ExpStep(95); }
    assert NoOneBetween(95, 96); assert NoOneBetween(94, 96); assert NoOneBetween(93, 96); assert NoOneBetween(92, 96);
    assert NoOneBetween(91, 96); assert NoOneBetween(90, 96); assert NoOneBetween(89, 96); assert NoOneBetween(88, 96);
    assert NoOneBetween(87, 96); assert NoOneBetween(86, 96); assert NoOneBetween(85, 96); assert NoOneBetween(84, 96);
    assert NoOneBetween(83, 96); assert NoOneBetween(82, 96); assert NoOneBetween(81, 96); assert NoOneBetween(80, 96);
  }

  lemma ExpChain6()
    ensures Exp(111) == 0xCE
    ensures NoOneBetween(96, 112)
  {
    ExpChain5();
    assert Exp(96) == 0xD9 by { ExpStep(96); } assert Exp(97) == 0xAF by { ExpStep(97); } assert Exp(98) == 0x43 by { ExpStep(98); } assert Exp(99) == 0x86 by { ExpStep(99); }
    assert Exp(100) == 0x11 by { ExpStep(100); } assert Exp(101) == 0x22 by { ExpStep(101); } assert Exp(102) == 0x44 by { ExpStep(102); } assert Exp(103) == 0x88 by { ExpStep(103); }
    assert Exp(104) == 0x0D by { ExpStep(104); } assert Exp(105) == 0x1A by { ExpStep(105); } assert Exp(106) == 0x34 by { ExpStep(106); } assert Exp(107) == 0x68 by { ExpStep(107); }
    assert Exp(108) == 0xD0 by { ExpStep(108); } assert Exp(109) == 0xBD by { ExpStep(109); } assert Exp(110) == 0x67 by { ExpStep(110); } assert Exp(111) == 0xCE by { ExpStep(111); }
    assert NoOneBetween(111, 112); assert NoOneBetween(110, 112); assert NoOneBetween(109, 112); assert NoOneBetween(108, 112);
    assert NoOneBetween(107, 112); assert NoOneBetween(106, 112); assert NoOneBetween(105, 112); assert NoOneBetween(104, 112);
    assert NoOneBetween(103, 112); assert NoOneBetween(102, 112); assert NoOneBetween(101, 112); assert NoOneBetween(100, 112);
    assert NoOneBetween(99, 112); assert NoOneBetween(98, 112); assert NoOneBetween(97, 112); assert NoOneBetween(96, 112);
  }

  lemma ExpChain7()
    ensures Exp(127) == 0xCC
    ensures NoOneBetween(112, 128)
  {
    ExpChain6();
    assert Exp(112) == 0x81 by { ExpStep(112); } assert Exp(113) == 0x1F by { ExpStep(113); } assert Exp(114) == 0x3E by { ExpStep(114); } assert Exp(115) == 0x7C by { ExpStep(115); }
    assert Exp(116) == 0xF8 by { ExpStep(116); } assert Exp(117) == 0xED by { ExpStep(117); } assert Exp(118) == 0xC7 by { ExpStep(118); } assert Exp(119) == 0x93 by { ExpStep(119); }
    assert Exp(120) == 0x3B by { ExpStep(120); } assert Exp(121) == 0x76 by { ExpStep(121); } assert Exp(122) == 0xEC by { ExpStep(122); } assert Exp(123) == 0xC5 by { ExpStep(123); }
    assert Exp(124) == 0x97 by { ExpStep(124); } assert Exp(125) == 0x33 by { ExpStep(125); } assert Exp(126) == 0x66 by { ExpStep(126); } assert Exp(127) == 0xCC by { ExpStep(127); }
    assert NoOneBetween(127, 128); assert NoOneBetween(126, 128); assert NoOneBetween(125, 128); assert NoOneBetween(124, 128);
    assert NoOneBetween(123, 128); assert NoOneBetween(122, 128); assert NoOneBetween(121, 128); assert NoOneBetween(120, 128);
    assert NoOneBetween(119, 128); assert NoOneBetween(118, 128); assert NoOneBetween(117, 128); assert NoOneBetween(116, 128);
    assert NoOneBetween(115, 128); assert NoOneBetween(114, 128); assert NoOneBetween(113, 128); assert NoOneBetween(112, 128);
  }

  lemma ExpChain8()
    ensures Exp(143) == 0x54
    ensures NoOneBetween(128, 144)
  {
    ExpChain7();
    assert Exp(128) == 0x85 by { ExpStep(128); } assert Exp(129) == 0x17 by { ExpStep(129); } assert Exp(130) == 0x2E by { ExpStep(130); } assert Exp(131) == 0x5C by { ExpStep(131); }
    assert Exp(132) == 0xB8 by { ExpStep(132); } assert Exp(133) == 0x6D by { ExpStep(133); } assert Exp(134) == 0xDA by { ExpStep(134); } assert Exp(135) == 0xA9 by { ExpStep(135); }
    assert Exp(136) == 0x4F by { ExpStep(136); } assert Exp(137) == 0x9E by { ExpStep(137); } assert Exp(138) == 0x21 by { ExpStep(138); } assert Exp(139) == 0x42 by { ExpStep(139); }
    assert Exp(140) == 0x84 by { ExpStep(140); } assert Exp(141) == 0x15 by { ExpStep(141); } assert Exp(142) == 0x2A by { ExpStep(142); } assert Exp(143) == 0x54 by { ExpStep(143); }
    assert NoOneBetween(143, 144); assert NoOneBetween(142, 144); assert NoOneBetween(141, 144); assert NoOneBetween(140, 144);
    assert NoOneBetween(139, 144); assert NoOneBetween(138, 144); assert NoOneBetween(137, 144); assert NoOneBetween(136, 144);
    assert NoOneBetween(135, 144); assert NoOneBetween(134, 144); assert NoOneBetween(133, 144); assert NoOneBetween(132, 144);
    assert NoOneBetween(131, 144); assert NoOneBetween(130, 144); assert NoOneBetween(129, 144); assert NoOneBetween(128, 144);
  }

  lemma ExpChain9()
    ensures Exp(159) == 0x73
    ensures NoOneBetween(144, 160)
  {
    ExpChain8();
    assert Exp(144) == 0xA8 by { ExpStep(144); } assert Exp(145) == 0x4D by { ExpStep(145); } assert Exp(146) == 0x9A by { ExpStep(146); } assert Exp(147) == 0x29 by { ExpStep(147); }
    assert Exp(148) == 0x52 by { ExpStep(148); } assert Exp(149) == 0xA4 by { ExpStep(149); } assert Exp(150) == 0x55 by { ExpStep(150); } assert Exp(151) == 0xAA by { ExpStep(151); }
    assert Exp(152) == 0x49 by { ExpStep(152); } assert Exp(153) == 0x92 by { ExpStep(153); } assert Exp(154) == 0x39 by { ExpStep(154); } assert Exp(155) == 0x72 by { ExpStep(155); }
    assert Exp(156) == 0xE4 by { ExpStep(156); } assert Exp(157) == 0xD5 by { ExpStep(157); } assert Exp(158) == 0xB7 by { ExpStep(158); } assert Exp(159) == 0x73 by { ExpStep(159); }
    assert NoOneBetween(159, 160); assert NoOneBetween(158, 160); assert NoOneBetween(157, 160); assert NoOneBetween(156, 160);
    assert NoOneBetween(155, 160); assert NoOneBetween(154, 160); assert NoOneBetween(153, 160); assert NoOneBetween(152, 160);
    assert NoOneBetween(151, 160); assert NoOneBetween(150, 160); assert NoOneBetween(149, 160); assert NoOneBetween(148, 160);
    assert NoOneBetween(147, 160); assert NoOneBetween(146, 160); assert NoOneBetween(145, 160); assert NoOneBetween(144, 160);
  }

  lemma ExpChain10()
    ensures Exp(175) == 0xFF
    ensures NoOneBetween(160, 176)
  {
    ExpChain9();
    assert Exp(160) == 0xE6 by { ExpStep(160); } assert Exp(161) == 0xD1 by { ExpStep(161); } assert Exp(162) == 0xBF by { ExpStep(162); } assert Exp(163) == 0x63 by { ExpStep(163); }
    assert Exp(164) == 0xC6 by { ExpStep(164); } assert Exp(165) == 0x91 by { ExpStep(165); } assert Exp(166) == 0x3F by { ExpStep(166); } assert Exp(167) == 0x7E by { ExpStep(167); }
    assert Exp(168) == 0xFC by { ExpStep(168); } assert Exp(169) == 0xE5 by { ExpStep(169); } assert Exp(170) == 0xD7 by { ExpStep(170); } assert Exp(171) == 0xB3 by { ExpStep(171); }
    assert Exp(172) == 0x7B by { ExpStep(172); } assert Exp(173) == 0xF6 by { ExpStep(173); } assert Exp(174) == 0xF1 by { ExpStep(174); } assert Exp(175) == 0xFF by { ExpStep(175); }
    assert NoOneBetween(175, 176); assert NoOneBetween(174, 176); assert NoOneBetween(173, 176); assert NoOneBetween(172, 176);
    assert NoOneBetween(171, 176); assert NoOneBetween(170, 176); assert NoOneBetween(169, 176); assert NoOneBetween(168, 176);
    assert NoOneBetween(167, 176); assert NoOneBetween(166, 176); assert NoOneBetween(165, 176); assert NoOneBetween(164, 176);
    assert NoOneBetween(163, 176); assert NoOneBetween(162, 176); assert NoOneBetween(161, 176); assert NoOneBetween(160, 176);
  }

  lemma ExpChain11()
    ensures Exp(191) == 0x41
    ensures NoOneBetween(176, 192)
  {
    ExpChain10();
    assert Exp(176) == 0xE3 by { ExpStep(176); } assert Exp(177) == 0xDB by { ExpStep(177); } assert Exp(178) == 0xAB by { ExpStep(178); } assert Exp(179) == 0x4B by { ExpStep(179); }
    assert Exp(180) == 0x96 by { ExpStep(180); } assert Exp(181) == 0x31 by { ExpStep(181); } assert Exp(182) == 0x62 by { ExpStep(182); } assert Exp(183) == 0xC4 by { ExpStep(183); }
    assert Exp(184) == 0x95 by { ExpStep(184); } assert Exp(185) == 0x37 by { ExpStep(185); } assert Exp(186) == 0x6E by { ExpStep(186); } assert Exp(187) == 0xDC by { ExpStep(187); }
    assert Exp(188) == 0xA5 by { ExpStep(188); } assert Exp(189) == 0x57 by { ExpStep(189); } assert Exp(190) == 0xAE by { ExpStep(190); } assert Exp(191) == 0x41 by { ExpStep(191); }
    assert NoOneBetween(191, 192); assert NoOneBetween(190, 192); assert NoOneBetween(189, 192); assert NoOneBetween(188, 192);
    assert NoOneBetween(187, 192); assert NoOneBetween(186, 192); assert NoOneBetween(185, 192); assert NoOneBetween(184, 192);
    assert NoOneBetween(183, 192); assert NoOneBetween(182, 192); assert NoOneBetween(181, 192); assert NoOneBetween(180, 192);
    assert NoOneBetween(179, 192); assert NoOneBetween(178, 192); assert NoOneBetween(177, 192); assert NoOneBetween(176, 192);
  }

  lemma ExpChain12()
    ensures Exp(207) == 0xA6
    ensures NoOneBetween(192, 208)
  {
    ExpChain11();
    assert Exp(192) == 0x82 by { ExpStep(192); } assert Exp(193) == 0x19 by { ExpStep(193); } assert Exp(194) == 0x32 by { ExpStep(194); } assert Exp(195) == 0x64 by { ExpStep(195); }
    assert Exp(196) == 0xC8 by { ExpStep(196); } assert Exp(197) == 0x8D by { ExpStep(197); } assert Exp(198) == 0x07 by { ExpStep(198); } assert Exp(199) == 0x0E by { ExpStep(199); }
    assert Exp(200) == 0x1C by { ExpStep(200); } assert Exp(201) == 0x38 by { ExpStep(201); } assert Exp(202) == 0x70 by { ExpStep(202); } assert Exp(203) == 0xE0 by { ExpStep(203); }
    assert Exp(204) == 0xDD by { ExpStep(204); } assert Exp(205) == 0xA7 by { ExpStep(205); } assert Exp(206) == 0x53 by { ExpStep(206); } assert Exp(207) == 0xA6 by { ExpStep(207); }
    assert NoOneBetween(207, 208); assert NoOneBetween(206, 208); assert NoOneBetween(205, 208); assert NoOneBetween(204, 208);
    assert NoOneBetween(203, 208); assert NoOneBetween(202, 208); assert NoOneBetween(201, 208); assert NoOneBetween(200, 208);
    assert NoOneBetween(199, 208); assert NoOneBetween(198, 208); assert NoOneBetween(197, 208); assert NoOneBetween(196, 208);
    assert NoOneBetween(195, 208); assert NoOneBetween(194, 208); assert NoOneBetween(193, 208); assert NoOneBetween(192, 208);
  }

  lemma ExpChain13()
    ensures Exp(223) == 0x09
    ensures NoOneBetween(208, 224)
  {
    ExpChain12();
    assert Exp(208) == 0x51 by { ExpStep(208); } assert Exp(209) == 0xA2 by { ExpStep(209); } assert Exp(210) == 0x59 by { ExpStep(210); } assert Exp(211) == 0xB2 by { ExpStep(211); }
    assert Exp(212) == 0x79 by { ExpStep(212); } assert Exp(213) == 0xF2 by { ExpStep(213); } assert Exp(214) == 0xF9 by { ExpStep(214); } assert Exp(215) == 0xEF by { ExpStep(215); }
    assert Exp(216) == 0xC3 by { ExpStep(216); } assert Exp(217) == 0x9B by { ExpStep(217); } assert Exp(218) == 0x2B by { ExpStep(218); } assert Exp(219) == 0x56 by { ExpStep(219); }
    assert Exp(220) == 0xAC by { ExpStep(220); } assert Exp(221) == 0x45 by { ExpStep(221); } assert Exp(222) == 0x8A by { ExpStep(222); } assert Exp(223) == 0x09 by { ExpStep(223); }
    assert NoOneBetween(223, 224); assert NoOneBetween(222, 224); assert NoOneBetween(221, 224); assert NoOneBetween(220, 224);
    assert NoOneBetween(219, 224); assert NoOneBetween(218, 224); assert NoOneBetween(217, 224); assert NoOneBetween(216, 224);
    assert NoOneBetween(215, 224); assert NoOneBetween(214, 224); assert NoOneBetween(213, 224); assert NoOneBetween(212, 224);
    assert NoOneBetween(211, 224); assert NoOneBetween(210, 224); assert NoOneBetween(209, 224); assert NoOneBetween(208, 224);
  }

  lemma ExpChain14()
    ensures Exp(239) == 0x16
    ensures NoOneBetween(224, 240)
  {
    ExpChain13();
    assert Exp(224) == 0x12 by { ExpStep(224); } assert Exp(225) == 0x24 by { ExpStep(225); } assert Exp(226) == 0x48 by { ExpStep(226); } assert Exp(227) == 0x90 by { ExpStep(227); }
    assert Exp(228) == 0x3D by { ExpStep(228); } assert Exp(229) == 0x7A by { ExpStep(229); } assert Exp(230) == 0xF4 by { ExpStep(230); } assert Exp(231) == 0xF5 by { ExpStep(231); }
    assert Exp(232) == 0xF7 by { ExpStep(232); } assert Exp(233) == 0xF3 by { ExpStep(233); } assert Exp(234) == 0xFB by { ExpStep(234); } assert Exp(235) == 0xEB by { ExpStep(235); }
    assert Exp(236) == 0xCB by { ExpStep(236); } assert Exp(237) == 0x8B by { ExpStep(237); } assert Exp(238) == 0x0B by { ExpStep(238); } assert Exp(239) == 0x16 by { ExpStep(239); }
    assert NoOneBetween(239, 240); assert NoOneBetween(238, 240); assert NoOneBetween(237, 240); assert NoOneBetween(236, 240);
    assert NoOneBetween(235, 240); assert NoOneBetween(234, 240); assert NoOneBetween(233, 240); assert NoOneBetween(232, 240);
    assert NoOneBetween(231, 240); assert NoOneBetween(230, 240); assert NoOneBetween(229, 240); assert NoOneBetween(228, 240);
    assert NoOneBetween(227, 240); assert NoOneBetween(226, 240); assert NoOneBetween(225, 240); assert NoOneBetween(224, 240);
  }

  lemma ExpChain15()
    ensures Exp(255) == 0x01
    ensures NoOneBetween(240, 255)
  {
    ExpChain14();
    assert Exp(240) == 0x2C by { ExpStep(240); } assert Exp(241) == 0x58 by { ExpStep(241); } assert Exp(242) == 0xB0 by { ExpStep(242); } assert Exp(243) == 0x7D by { ExpStep(243); }
    assert Exp(244) == 0xFA by { ExpStep(244); } assert Exp(245) == 0xE9 by { ExpStep(245); } assert Exp(246) == 0xCF by { ExpStep(246); } assert Exp(247) == 0x83 by { ExpStep(247); }
    assert Exp(248) == 0x1B by { ExpStep(248); } assert Exp(249) == 0x36 by { ExpStep(249); } assert Exp(250) == 0x6C by { ExpStep(250); } assert Exp(251) == 0xD8 by { ExpStep(251); }
    assert Exp(252) == 0xAD by { ExpStep(252); } assert Exp(253) == 0x47 by { ExpStep(253); } assert Exp(254) == 0x8E by { ExpStep(254); } assert Exp(255) == 0x01 by { ExpStep(255); }
    assert NoOneBetween(254, 255); assert NoOneBetween(253, 255); assert NoOneBetween(252, 255); assert NoOneBetween(251, 255);
    assert NoOneBetween(250, 255); assert NoOneBetween(249, 255); assert NoOneBetween(248, 255); assert NoOneBetween(247, 255);
    assert NoOneBetween(246, 255); assert NoOneBetween(245, 255); assert NoOneBetween(244, 255); assert NoOneBetween(243, 255);
    assert NoOneBetween(242, 255); assert NoOneBetween(241, 255); assert NoOneBetween(240, 255);
  }

  /** 2 has multiplicative order 255: the exponent table of js/qr.js is
      periodic with period 255 and no shorter. */
  lemma ExpOrder(n: int)
    requires n == 255
    ensures Exp(n) == 1
    ensures forall d :: 0 < d < n ==> Exp(d) != 1
  {
    ExpChain15();
    forall d | 0 < d < 255 ensures Exp(d) != 1 {
      if d < 16 { ExpChain0(); NoOneBetweenAt(1, 16, d); }
      else if d < 32 { ExpChain1(); NoOneBetweenAt(16, 32, d); }
      else if d < 48 { ExpChain2(); NoOneBetweenAt(32, 48, d); }
      else if d < 64 { ExpChain3(); NoOneBetweenAt(48, 64, d); }
      else if d < 80 { ExpChain4(); NoOneBetweenAt(64, 80, d); }
      else if d < 96 { ExpChain5(); NoOneBetweenAt(80, 96, d); }
      else if d < 112 { ExpChain6(); NoOneBetweenAt(96, 112, d); }
      else if d < 128 { ExpChain7(); NoOneBetweenAt(112, 128, d); }
      else if d < 144 { ExpChain8(); NoOneBetweenAt(128, 144, d); }
      else if d < 160 { ExpChain9(); NoOneBetweenAt(144, 160, d); }
      else if d < 176 { ExpChain10(); NoOneBetweenAt(160, 176, d); }
      else if d < 192 { ExpChain11(); NoOneBetweenAt(176, 192, d); }
      else if d < 208 { ExpChain12(); NoOneBetweenAt(192, 208, d); }
      else if d < 224 { ExpChain13(); NoOneBetweenAt(208, 224, d); }
      else if d < 240 { ExpChain14(); NoOneBetweenAt(224, 240, d); }
      else if d < 255 { ExpChain15(); NoOneBetweenAt(240, 255, d); }
    }
  }
  /** `gfExp[i + 255] == gfExp[i]`: the table repeats with period 255. */
  lemma {:induction false} ExpPeriod(i: nat)
    ensures Exp(i + 255) == Exp(i)
  {
    if i == 0 {
      ExpOrder(i + 255);
    } else {
      ExpPeriod(i - 1);
      ExpStep(i);
      ExpStep(i + 255);
    }
  }

  lemma {:induction false} ExpShiftDown(i: nat, j: nat)
    requires i <= j && Exp(i) == Exp(j)
    ensures Exp(0) == Exp(j - i)
    decreases i
  {
    if i > 0 {
      ExpStep(i);
      ExpStep(j);
      StepInjective(Exp(i - 1), Exp(j - 1));
      ExpShiftDown(i - 1, j - 1);
    }
  }

  /** The first 255 powers are pairwise distinct. */
  lemma ExpInjective(i: nat, j: nat)
    requires i < 255 && j < 255 && Exp(i) == Exp(j)
    ensures i == j
  {
    var n := 255;
    if i < j {
      ExpShiftDown(i, j);
      ExpOrder(n);
    } else if j < i {
      ExpShiftDown(j, i);
      ExpOrder(n);
    }
  }

  /** The first i at or after `from` whose power is v, or 0 when there is
      none below 255. */
  function LogFrom(v: Byte, from: nat): nat
    decreases 255 - from
  {
    if from >= 255 then 0 else if Exp(from) as int == v then from else LogFrom(v, from + 1)
  }

  /** `gfLog[v]`: the discrete logarithm, 0 for v == 0 as the zeroed table has it. */
  function Log(v: Byte): (r: nat)
    ensures r < 255
  {
    LogFromBound(v, 0);
    LogFrom(v, 0)
  }

  lemma {:induction false} LogFromBound(v: Byte, from: nat)
    ensures LogFrom(v, from) < 255
    decreases 255 - from
  {
    if from < 255 && Exp(from) as int != v {
      LogFromBound(v, from + 1);
    }
  }

  /** Distinct table entries are distinct integers. */
  lemma AsIntInjective(a: bv8, b: bv8)
    requires a as int == b as int
    ensures a == b
  {
  }

  lemma {:induction false} LogFromFinds(v: Byte, from: nat, j: nat)
    requires from <= j < 255 && Exp(j) as int == v
    ensures LogFrom(v, from) == j
    decreases j - from
  {
    if from < j {
      if Exp(from) as int == v {
        AsIntInjective(Exp(from), Exp(j));
        ExpInjective(from, j);
      }
      LogFromFinds(v, from + 1, j);
    }
  }

  /** `gfLog[gfExp[i]] == i` for i < 255. */
  lemma LogExp(i: nat)
    requires i < 255
    ensures Log(Exp(i) as int) == i
  {
    LogFromFinds(Exp(i) as int, 0, i);
  }

  lemma LogZero(v: Byte)
    requires v == 0
    ensures Log(v) == 0
  {
    forall i | 0 <= i < 255 ensures Exp(i) as int != v { ExpNonZero(i); }
    LogFromMissing(v, 0);
  }

  lemma {:induction false} LogFromMissing(v: Byte, from: nat)
    requires forall i :: 0 <= i < 255 ==> Exp(i) as int != v
    ensures LogFrom(v, from) == 0
    decreases 255 - from
  {
    if from < 255 {
      LogFromMissing(v, from + 1);
    }
  }

  /** The powers below n, as the integers that index the tables. */
  function Powers(n: nat): set<int> {
    set i | 0 <= i < n :: Exp(i) as int
  }

  lemma {:induction false} PowersCard(n: nat)
    requires n <= 255
    ensures |Powers(n)| == n
  {
    if n > 0 {
      PowersCard(n - 1);
      assert Powers(n) == Powers(n - 1) + {Exp(n - 1) as int};
      if Exp(n - 1) as int in Powers(n - 1) {
        var i :| 0 <= i < n - 1 && Exp(i) as int == Exp(n - 1) as int;
        AsIntInjective(Exp(i), Exp(n - 1));
        ExpInjective(i, n - 1);
      }
    }
  }

  /** The integers lo..hi-1. */
  function Range(lo: int, hi: int): set<int>
    decreases hi - lo
  {
    if lo >= hi then {} else Range(lo, hi - 1) + {hi - 1}
  }

  lemma {:induction false} RangeCard(lo: int, hi: int)
    requires lo <= hi
    ensures |Range(lo, hi)| == hi - lo
    ensures forall k :: k in Range(lo, hi) <==> lo <= k < hi
    decreases hi - lo
  {
    if lo < hi {
      RangeCard(lo, hi - 1);
    }
  }

  lemma SubsetSameCard(a: set<int>, b: set<int>)
    requires a <= b && |a| == |b|
    ensures a == b
  {
    assert |b - a| == 0;
  }

  /** Every non-zero byte is a power of the generator: with 255 distinct
      powers among the 255 non-zero bytes, none is missed. */
  lemma PowerOf(v: Byte) returns (i: nat)
    requires v != 0
    ensures i < 255 && Exp(i) as int == v
  {
    var n, lo, hi := 255, 1, 256;
    assert v in Powers(n) by {
      PowersCard(n);
      RangeCard(lo, hi);
      forall x | x in Powers(n) ensures x in Range(lo, hi) {
        var k :| 0 <= k < n && Exp(k) as int == x;
        ExpNonZero(k);
      }
      SubsetSameCard(Powers(n), Range(lo, hi));
    }
    i :| 0 <= i < n && Exp(i) as int == v;
  }

  lemma ExpLog(v: Byte)
    requires v != 0
    ensures Exp(Log(v)) as int == v
  {
    var i := PowerOf(v);
    LogExp(i);
  }

  /** `gfMul` on the tables that `initGF` fills: both logarithms are below
      255, so their sum reduced modulo 255 is one subtraction. */
  function GfMul(a: Byte, b: Byte): (r: Byte)
    ensures r == 0 <==> a == 0 || b == 0
  {
    if a == 0 || b == 0 then 0 else ExpInt((Log(a) + Log(b)) % 255)
  }

  /** `gfExp[i]` as the integer a table cell holds; never 0. */
  function ExpInt(i: nat): (r: Byte)
    ensures r != 0
  {
    ExpNonZero(i);
    Exp(i) as int
  }

  lemma GfMulCommutes(a: Byte, b: Byte)
    ensures GfMul(a, b) == GfMul(b, a)
  {
  }

  /** The tables multiply powers by adding exponents. */
  lemma GfMulExp(i: nat, j: nat)
    requires i < 255 && j < 255
    ensures GfMul(Exp(i) as int, Exp(j) as int) == Exp(i + j) as int
  {
    var a, b := Exp(i) as int, Exp(j) as int;
    ExpNonZero(i);
    ExpNonZero(j);
    LogExp(i);
    LogExp(j);
    var e := if i + j >= 255 then i + j - 255 else i + j;
    GfMulLogs(a, b, i + j);
    assert Exp(e) == Exp(i + j) by {
      if i + j >= 255 {
        ExpPeriod(e);
      }
    }
  }

  lemma GfMulLogs(a: Byte, b: Byte, s: nat)
    requires a != 0 && b != 0 && Log(a) + Log(b) == s
    ensures GfMul(a, b) == Exp(if s >= 255 then s - 255 else s) as int
  {
    assert s % 255 == if s >= 255 then s - 255 else s;
  }

  /** 1 is the unit of the table multiplication. */
  lemma GfMulOne(a: Byte)
    ensures GfMul(a, 1) == a
  {
    if a != 0 {
      LogExp(0);
      ExpLog(a);
    }
  }

  /** `gfMul` reads the tables as the source does: `gfExp` at the sum of
      the logarithms modulo 255. */
  method TableMul(gfExp: array<bv8>, gfLog: array<int>, a: Byte, b: Byte) returns (r: Byte)
    requires Filled(gfExp, gfLog)
    ensures r == GfMul(a, b)
  {
    if a == 0 || b == 0 {
      r := 0;
    } else {
      r := gfExp[(gfLog[a] + gfLog[b]) % 255] as int;
    }
  }

  /** The tables as `initGF` leaves them. */
  predicate Filled(gfExp: array<bv8>, gfLog: array<int>)
    reads gfExp, gfLog
  {
    gfExp.Length == 512 && gfLog.Length == 256
    && (forall i :: 0 <= i < 512 ==> gfExp[i] == Exp(i))
    && (forall v :: 0 <= v < 256 ==> gfLog[v] == Log(v))
  }

  /** `initGF`: fills `gfExp` (512 entries) and `gfLog` (256 entries). The
      logarithms are below 255, so holding them as integers loses nothing
      of the `Uint8Array`. */
  method InitGF() returns (gfExp: array<bv8>, gfLog: array<int>)
    ensures fresh(gfExp) && fresh(gfLog)
    ensures Filled(gfExp, gfLog)
  {
    gfExp := FillExp();
    gfLog := FillLog(gfExp);
  }

  /** The first loop of `initGF`; it writes every entry, so the zero fill
      of the typed array plays no part. */
  method FillExp() returns (gfExp: array<bv8>)
    ensures fresh(gfExp) && gfExp.Length == 512
    ensures forall i :: 0 <= i < 512 ==> gfExp[i] == Exp(i)
  {
    gfExp := new bv8[512];
    gfExp[0] := 1;
    var i := 1;
    while i < 512
      invariant 1 <= i <= 512
      invariant forall k :: 0 <= k < i ==> gfExp[k] == Exp(k)
    {
      gfExp[i] := Step(gfExp[i - 1]);
      ExpStep(i);
      i := i + 1;
    }
  }

  /** The second loop of `initGF`, over a zero-filled table. */
  method FillLog(gfExp: array<bv8>) returns (gfLog: array<int>)
    requires gfExp.Length == 512
    requires forall i :: 0 <= i < 512 ==> gfExp[i] == Exp(i)
    ensures fresh(gfLog) && gfLog.Length == 256
    ensures forall v :: 0 <= v < 256 ==> gfLog[v] == Log(v)
  {
    gfLog := new int[256];
    forall v | 0 <= v < 256 {
      gfLog[v] := 0;
    }
    var i := 0;
    while i < 255
      invariant 0 <= i <= 255
      invariant forall k :: 0 <= k < i ==> gfLog[Exp(k) as int] == k
      invariant forall v :: 0 <= v < 256 && v !in Powers(i) ==> gfLog[v] == 0
    {
      ghost var before := gfLog[..];
      gfLog[gfExp[i] as int] := i;
      LogStep(before, gfLog[..], i);
      i := i + 1;
    }
    LogTable(gfLog);
  }

  /** One pass of the second loop keeps its two invariants. */
  lemma LogStep(a: seq<int>, b: seq<int>, i: nat)
    requires i < 255 && |a| == 256 && b == a[Exp(i) as int := i]
    requires forall k :: 0 <= k < i ==> a[Exp(k) as int] == k
    requires forall v :: 0 <= v < 256 && v !in Powers(i) ==> a[v] == 0
    ensures forall k :: 0 <= k < i + 1 ==> b[Exp(k) as int] == k
    ensures forall v :: 0 <= v < 256 && v !in Powers(i + 1) ==> b[v] == 0
  {
    PowersStep(i);
    forall k | 0 <= k < i ensures b[Exp(k) as int] == k {
      assert Exp(k) as int in Powers(i);
    }
  }

  /** A fresh power extends the set of powers by one new element. */
  lemma PowersStep(i: nat)
    requires i < 255
    ensures Exp(i) as int !in Powers(i)
    ensures Powers(i + 1) == Powers(i) + {Exp(i) as int}
  {
    if Exp(i) as int in Powers(i) {
      var k :| 0 <= k < i && Exp(k) as int == Exp(i) as int;
      AsIntInjective(Exp(k), Exp(i));
      ExpInjective(k, i);
    }
  }

  /** A table with `gfLog[gfExp[k]] == k` for every k < 255 and zero
      elsewhere is the logarithm. */
  lemma LogTable(gfLog: array<int>)
    requires gfLog.Length == 256
    requires forall k :: 0 <= k < 255 ==> gfLog[Exp(k) as int] == k
    requires forall v :: 0 <= v < 256 && v !in Powers(255) ==> gfLog[v] == 0
    ensures forall v :: 0 <= v < 256 ==> gfLog[v] == Log(v)
  {
    forall v | 0 <= v < 256 ensures gfLog[v] == Log(v) {
      if v == 0 {
        LogZero(v);
        if v in Powers(255) {
          var k :| 0 <= k < 255 && Exp(k) as int == v;
          ExpNonZero(k);
        }
      } else {
        ExpLog(v);
        assert gfLog[Exp(Log(v)) as int] == Log(v);
      }
    }
  }
}
