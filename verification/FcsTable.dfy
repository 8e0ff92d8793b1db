/**
 The 256 entries of the frame check table, and the two ways in which they follow from one another.
 */
module FcsTable {
  import opened Bits

  /** Eight entries of the table, from index `8 * o` on. */
  function Octet(o: int): (r: seq<word>)
    requires 0 <= o < 32
    ensures |r| == 8
  {
    match o
    case 0 => [0x0000, 0x1189, 0x2312, 0x329b, 0x4624, 0x57ad, 0x6536, 0x74bf]
    case 1 => [0x8c48, 0x9dc1, 0xaf5a, 0xbed3, 0xca6c, 0xdbe5, 0xe97e, 0xf8f7]
    case 2 => [0x1081, 0x0108, 0x3393, 0x221a, 0x56a5, 0x472c, 0x75b7, 0x643e]
    case 3 => [0x9cc9, 0x8d40, 0xbfdb, 0xae52, 0xdaed, 0xcb64, 0xf9ff, 0xe876]
    case 4 => [0x2102, 0x308b, 0x0210, 0x1399, 0x6726, 0x76af, 0x4434, 0x55bd]
    case 5 => [0xad4a, 0xbcc3, 0x8e58, 0x9fd1, 0xeb6e, 0xfae7, 0xc87c, 0xd9f5]
    case 6 => [0x3183, 0x200a, 0x1291, 0x0318, 0x77a7, 0x662e, 0x54b5, 0x453c]
    case 7 => [0xbdcb, 0xac42, 0x9ed9, 0x8f50, 0xfbef, 0xea66, 0xd8fd, 0xc974]
    case 8 => [0x4204, 0x538d, 0x6116, 0x709f, 0x0420, 0x15a9, 0x2732, 0x36bb]
    case 9 => [0xce4c, 0xdfc5, 0xed5e, 0xfcd7, 0x8868, 0x99e1, 0xab7a, 0xbaf3]
    case 10 => [0x5285, 0x430c, 0x7197, 0x601e, 0x14a1, 0x0528, 0x37b3, 0x263a]
    case 11 => [0xdecd, 0xcf44, 0xfddf, 0xec56, 0x98e9, 0x8960, 0xbbfb, 0xaa72]
    case 12 => [0x6306, 0x728f, 0x4014, 0x519d, 0x2522, 0x34ab, 0x0630, 0x17b9]
    case 13 => [0xef4e, 0xfec7, 0xcc5c, 0xddd5, 0xa96a, 0xb8e3, 0x8a78, 0x9bf1]
    case 14 => [0x7387, 0x620e, 0x5095, 0x411c, 0x35a3, 0x242a, 0x16b1, 0x0738]
    case 15 => [0xffcf, 0xee46, 0xdcdd, 0xcd54, 0xb9eb, 0xa862, 0x9af9, 0x8b70]
    case 16 => [0x8408, 0x9581, 0xa71a, 0xb693, 0xc22c, 0xd3a5, 0xe13e, 0xf0b7]
    case 17 => [0x0840, 0x19c9, 0x2b52, 0x3adb, 0x4e64, 0x5fed, 0x6d76, 0x7cff]
    case 18 => [0x9489, 0x8500, 0xb79b, 0xa612, 0xd2ad, 0xc324, 0xf1bf, 0xe036]
    case 19 => [0x18c1, 0x0948, 0x3bd3, 0x2a5a, 0x5ee5, 0x4f6c, 0x7df7, 0x6c7e]
    case 20 => [0xa50a, 0xb483, 0x8618, 0x9791, 0xe32e, 0xf2a7, 0xc03c, 0xd1b5]
    case 21 => [0x2942, 0x38cb, 0x0a50, 0x1bd9, 0x6f66, 0x7eef, 0x4c74, 0x5dfd]
    case 22 => [0xb58b, 0xa402, 0x9699, 0x8710, 0xf3af, 0xe226, 0xd0bd, 0xc134]
    case 23 => [0x39c3, 0x284a, 0x1ad1, 0x0b58, 0x7fe7, 0x6e6e, 0x5cf5, 0x4d7c]
    case 24 => [0xc60c, 0xd785, 0xe51e, 0xf497, 0x8028, 0x91a1, 0xa33a, 0xb2b3]
    case 25 => [0x4a44, 0x5bcd, 0x6956, 0x78df, 0x0c60, 0x1de9, 0x2f72, 0x3efb]
    case 26 => [0xd68d, 0xc704, 0xf59f, 0xe416, 0x90a9, 0x8120, 0xb3bb, 0xa232]
    case 27 => [0x5ac5, 0x4b4c, 0x79d7, 0x685e, 0x1ce1, 0x0d68, 0x3ff3, 0x2e7a]
    case 28 => [0xe70e, 0xf687, 0xc41c, 0xd595, 0xa12a, 0xb0a3, 0x8238, 0x93b1]
    case 29 => [0x6b46, 0x7acf, 0x4854, 0x59dd, 0x2d62, 0x3ceb, 0x0e70, 0x1ff9]
    case 30 => [0xf78f, 0xe606, 0xd49d, 0xc514, 0xb1ab, 0xa022, 0x92b9, 0x8330]
    case _ => [0x7bc7, 0x6a4e, 0x58d5, 0x495c, 0x3de3, 0x2c6a, 0x1ef1, 0x0f78]
  }

  function TableEntry(i: byte): word { Octet(i / 8)[i % 8] }

  /** The three bits of the polynomial 0x8408 inverted. */
  function Invert(y: int): int {
    (if y / 0x8000 % 2 == 0 then y + 0x8000 else y - 0x8000)
    + (if y / 0x400 % 2 == 0 then 0x400 else -0x400) + (if y / 8 % 2 == 0 then 8 else -8)
  }

  /** One round of the bit-serial form in plain arithmetic. */
  function Halve(x: int): int { if x % 2 == 1 then Invert(x / 2) else x / 2 }

  function InvertAll(r: seq<word>): (s: seq<int>)
    requires |r| == 8
    ensures |s| == 8
  {
    [Invert(r[0]), Invert(r[1]), Invert(r[2]), Invert(r[3]), Invert(r[4]), Invert(r[5]), Invert(r[6]), Invert(r[7])]
  }

  function HalveEven(r: seq<word>): (s: seq<int>)
    requires |r| == 8
    ensures |s| == 4
  {
    [Halve(r[0]), Halve(r[2]), Halve(r[4]), Halve(r[6])]
  }

  lemma Upper0()
    ensures Octet(16) == InvertAll(Octet(0))
  {}

  lemma Upper1()
    ensures Octet(17) == InvertAll(Octet(1))
  {}

  lemma Upper2()
    ensures Octet(18) == InvertAll(Octet(2))
  {}

  lemma Upper3()
    ensures Octet(19) == InvertAll(Octet(3))
  {}

  lemma Upper4()
    ensures Octet(20) == InvertAll(Octet(4))
  {}

  lemma Upper5()
    ensures Octet(21) == InvertAll(Octet(5))
  {}

  lemma Upper6()
    ensures Octet(22) == InvertAll(Octet(6))
  {}

  lemma Upper7()
    ensures Octet(23) == InvertAll(Octet(7))
  {}

  lemma Upper8()
    ensures Octet(24) == InvertAll(Octet(8))
  {}

  lemma Upper9()
    ensures Octet(25) == InvertAll(Octet(9))
  {}

  lemma Upper10()
    ensures Octet(26) == InvertAll(Octet(10))
  {}

  lemma Upper11()
    ensures Octet(27) == InvertAll(Octet(11))
  {}

  lemma Upper12()
    ensures Octet(28) == InvertAll(Octet(12))
  {}

  lemma Upper13()
    ensures Octet(29) == InvertAll(Octet(13))
  {}

  lemma Upper14()
    ensures Octet(30) == InvertAll(Octet(14))
  {}

  lemma Upper15()
    ensures Octet(31) == InvertAll(Octet(15))
  {}

  lemma Lower0()
    ensures Octet(0) == HalveEven(Octet(0)) + HalveEven(Octet(1))
  {}

  lemma Lower1()
    ensures Octet(1) == HalveEven(Octet(2)) + HalveEven(Octet(3))
  {}

  lemma Lower2()
    ensures Octet(2) == HalveEven(Octet(4)) + HalveEven(Octet(5))
  {}

  lemma Lower3()
    ensures Octet(3) == HalveEven(Octet(6)) + HalveEven(Octet(7))
  {}

  lemma Lower4()
    ensures Octet(4) == HalveEven(Octet(8)) + HalveEven(Octet(9))
  {}

  lemma Lower5()
    ensures Octet(5) == HalveEven(Octet(10)) + HalveEven(Octet(11))
  {}

  lemma Lower6()
    ensures Octet(6) == HalveEven(Octet(12)) + HalveEven(Octet(13))
  {}

  lemma Lower7()
    ensures Octet(7) == HalveEven(Octet(14)) + HalveEven(Octet(15))
  {}

  lemma Lower8()
    ensures Octet(8) == HalveEven(Octet(16)) + HalveEven(Octet(17))
  {}

  lemma Lower9()
    ensures Octet(9) == HalveEven(Octet(18)) + HalveEven(Octet(19))
  {}

  lemma Lower10()
    ensures Octet(10) == HalveEven(Octet(20)) + HalveEven(Octet(21))
  {}

  lemma Lower11()
    ensures Octet(11) == HalveEven(Octet(22)) + HalveEven(Octet(23))
  {}

  lemma Lower12()
    ensures Octet(12) == HalveEven(Octet(24)) + HalveEven(Octet(25))
  {}

  lemma Lower13()
    ensures Octet(13) == HalveEven(Octet(26)) + HalveEven(Octet(27))
  {}

  lemma Lower14()
    ensures Octet(14) == HalveEven(Octet(28)) + HalveEven(Octet(29))
  {}

  lemma Lower15()
    ensures Octet(15) == HalveEven(Octet(30)) + HalveEven(Octet(31))
  {}

  lemma UpperOctet(o: nat)
    requires o < 16
    ensures Octet(o + 16) == InvertAll(Octet(o))
  {
    hide Octet, InvertAll;
    match o
    case 0 => Upper0();
    case 1 => Upper1();
    case 2 => Upper2();
    case 3 => Upper3();
    case 4 => Upper4();
    case 5 => Upper5();
    case 6 => Upper6();
    case 7 => Upper7();
    case 8 => Upper8();
    case 9 => Upper9();
    case 10 => Upper10();
    case 11 => Upper11();
    case 12 => Upper12();
    case 13 => Upper13();
    case 14 => Upper14();
    case _ => Upper15();
  }

  lemma LowerOctet(o: nat)
    requires o < 16
    ensures Octet(o) == HalveEven(Octet(2 * o)) + HalveEven(Octet(2 * o + 1))
  {
    hide Octet, HalveEven;
    match o
    case 0 => Lower0();
    case 1 => Lower1();
    case 2 => Lower2();
    case 3 => Lower3();
    case 4 => Lower4();
    case 5 => Lower5();
    case 6 => Lower6();
    case 7 => Lower7();
    case 8 => Lower8();
    case 9 => Lower9();
    case 10 => Lower10();
    case 11 => Lower11();
    case 12 => Lower12();
    case 13 => Lower13();
    case 14 => Lower14();
    case _ => Lower15();
  }

  lemma InvertAt(r: seq<word>, k: nat)
    requires k < |r| == 8
    ensures InvertAll(r)[k] == Invert(r[k])
  {
    hide Invert;
  }

  lemma HalveAt(r: seq<word>, k: nat)
    requires k < 4 && |r| == 8
    ensures HalveEven(r)[k] == Halve(r[2 * k])
  {
    hide Halve;
  }

  /** The upper half of the table is the lower one with the polynomial mixed in. */
  lemma UpperEntry(i: byte)
    requires i < 128
    ensures TableEntry(i + 128) == Invert(TableEntry(i))
  {
    hide Octet, Invert, InvertAll;
    UpperOctet(i / 8);
    InvertAt(Octet(i / 8), i % 8);
    assert (i + 128) / 8 == i / 8 + 16 && (i + 128) % 8 == i % 8;
  }

  /** An entry of the lower half is one round from the entry of twice its index. */
  lemma LowerEntry(i: byte)
    requires i < 128
    ensures TableEntry(i) == Halve(TableEntry(2 * i))
  {
    hide Octet, Halve, HalveEven;
    var o, l := i / 8, i % 8;
    LowerOctet(o);
    var low, high := HalveEven(Octet(2 * o)), HalveEven(Octet(2 * o + 1));
    if l < 4 {
      HalveAt(Octet(2 * o), l);
      assert 2 * i / 8 == 2 * o && 2 * i % 8 == 2 * l;
      assert (low + high)[l] == low[l];
    } else {
      HalveAt(Octet(2 * o + 1), l - 4);
      assert 2 * i / 8 == 2 * o + 1 && 2 * i % 8 == 2 * (l - 4);
      assert (low + high)[l] == high[l - 4];
    }
  }

  lemma FirstEntry()
    ensures TableEntry(0) == 0
  {}
}
