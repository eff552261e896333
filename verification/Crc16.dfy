// Model of FLIR_Lepton/src/crc16fast.c: the table-driven CRC-16 that guards every
// attribute read of the Lepton camera.  The loops are proved equal to a fold
// (CrcFrom), the fold to the long division of Gf2.dfy, and the error-detection
// properties are proved of the fold.
module Crc16 {
  import opened Gf2

  // ---------------------------------------------------------------- the table

  function TableRow0(c: bv8): bv16 {
    match c
    case 0 => 0x0000 case 1 => 0x1021 case 2 => 0x2042 case 3 => 0x3063 case 4 => 0x4084 case 5 => 0x50A5 case 6 => 0x60C6 case 7 => 0x70E7
    case 8 => 0x8108 case 9 => 0x9129 case 10 => 0xA14A case 11 => 0xB16B case 12 => 0xC18C case 13 => 0xD1AD case 14 => 0xE1CE case _ => 0xF1EF
  }

  function TableRow1(c: bv8): bv16 {
    match c
    case 0 => 0x1231 case 1 => 0x0210 case 2 => 0x3273 case 3 => 0x2252 case 4 => 0x52B5 case 5 => 0x4294 case 6 => 0x72F7 case 7 => 0x62D6
    case 8 => 0x9339 case 9 => 0x8318 case 10 => 0xB37B case 11 => 0xA35A case 12 => 0xD3BD case 13 => 0xC39C case 14 => 0xF3FF case _ => 0xE3DE
  }

  function TableRow2(c: bv8): bv16 {
    match c
    case 0 => 0x2462 case 1 => 0x3443 case 2 => 0x0420 case 3 => 0x1401 case 4 => 0x64E6 case 5 => 0x74C7 case 6 => 0x44A4 case 7 => 0x5485
    case 8 => 0xA56A case 9 => 0xB54B case 10 => 0x8528 case 11 => 0x9509 case 12 => 0xE5EE case 13 => 0xF5CF case 14 => 0xC5AC case _ => 0xD58D
  }

  function TableRow3(c: bv8): bv16 {
    match c
    case 0 => 0x3653 case 1 => 0x2672 case 2 => 0x1611 case 3 => 0x0630 case 4 => 0x76D7 case 5 => 0x66F6 case 6 => 0x5695 case 7 => 0x46B4
    case 8 => 0xB75B case 9 => 0xA77A case 10 => 0x9719 case 11 => 0x8738 case 12 => 0xF7DF case 13 => 0xE7FE case 14 => 0xD79D case _ => 0xC7BC
  }

  function TableRow4(c: bv8): bv16 {
    match c
    case 0 => 0x48C4 case 1 => 0x58E5 case 2 => 0x6886 case 3 => 0x78A7 case 4 => 0x0840 case 5 => 0x1861 case 6 => 0x2802 case 7 => 0x3823
    case 8 => 0xC9CC case 9 => 0xD9ED case 10 => 0xE98E case 11 => 0xF9AF case 12 => 0x8948 case 13 => 0x9969 case 14 => 0xA90A case _ => 0xB92B
  }

  function TableRow5(c: bv8): bv16 {
    match c
    case 0 => 0x5AF5 case 1 => 0x4AD4 case 2 => 0x7AB7 case 3 => 0x6A96 case 4 => 0x1A71 case 5 => 0x0A50 case 6 => 0x3A33 case 7 => 0x2A12
    case 8 => 0xDBFD case 9 => 0xCBDC case 10 => 0xFBBF case 11 => 0xEB9E case 12 => 0x9B79 case 13 => 0x8B58 case 14 => 0xBB3B case _ => 0xAB1A
  }

  function TableRow6(c: bv8): bv16 {
    match c
    case 0 => 0x6CA6 case 1 => 0x7C87 case 2 => 0x4CE4 case 3 => 0x5CC5 case 4 => 0x2C22 case 5 => 0x3C03 case 6 => 0x0C60 case 7 => 0x1C41
    case 8 => 0xEDAE case 9 => 0xFD8F case 10 => 0xCDEC case 11 => 0xDDCD case 12 => 0xAD2A case 13 => 0xBD0B case 14 => 0x8D68 case _ => 0x9D49
  }

  function TableRow7(c: bv8): bv16 {
    match c
    case 0 => 0x7E97 case 1 => 0x6EB6 case 2 => 0x5ED5 case 3 => 0x4EF4 case 4 => 0x3E13 case 5 => 0x2E32 case 6 => 0x1E51 case 7 => 0x0E70
    case 8 => 0xFF9F case 9 => 0xEFBE case 10 => 0xDFDD case 11 => 0xCFFC case 12 => 0xBF1B case 13 => 0xAF3A case 14 => 0x9F59 case _ => 0x8F78
  }

  function TableRow8(c: bv8): bv16 {
    match c
    case 0 => 0x9188 case 1 => 0x81A9 case 2 => 0xB1CA case 3 => 0xA1EB case 4 => 0xD10C case 5 => 0xC12D case 6 => 0xF14E case 7 => 0xE16F
    case 8 => 0x1080 case 9 => 0x00A1 case 10 => 0x30C2 case 11 => 0x20E3 case 12 => 0x5004 case 13 => 0x4025 case 14 => 0x7046 case _ => 0x6067
  }

  function TableRow9(c: bv8): bv16 {
    match c
    case 0 => 0x83B9 case 1 => 0x9398 case 2 => 0xA3FB case 3 => 0xB3DA case 4 => 0xC33D case 5 => 0xD31C case 6 => 0xE37F case 7 => 0xF35E
    case 8 => 0x02B1 case 9 => 0x1290 case 10 => 0x22F3 case 11 => 0x32D2 case 12 => 0x4235 case 13 => 0x5214 case 14 => 0x6277 case _ => 0x7256
  }

  function TableRowA(c: bv8): bv16 {
    match c
    case 0 => 0xB5EA case 1 => 0xA5CB case 2 => 0x95A8 case 3 => 0x8589 case 4 => 0xF56E case 5 => 0xE54F case 6 => 0xD52C case 7 => 0xC50D
    case 8 => 0x34E2 case 9 => 0x24C3 case 10 => 0x14A0 case 11 => 0x0481 case 12 => 0x7466 case 13 => 0x6447 case 14 => 0x5424 case _ => 0x4405
  }

  function TableRowB(c: bv8): bv16 {
    match c
    case 0 => 0xA7DB case 1 => 0xB7FA case 2 => 0x8799 case 3 => 0x97B8 case 4 => 0xE75F case 5 => 0xF77E case 6 => 0xC71D case 7 => 0xD73C
    case 8 => 0x26D3 case 9 => 0x36F2 case 10 => 0x0691 case 11 => 0x16B0 case 12 => 0x6657 case 13 => 0x7676 case 14 => 0x4615 case _ => 0x5634
  }

  function TableRowC(c: bv8): bv16 {
    match c
    case 0 => 0xD94C case 1 => 0xC96D case 2 => 0xF90E case 3 => 0xE92F case 4 => 0x99C8 case 5 => 0x89E9 case 6 => 0xB98A case 7 => 0xA9AB
    case 8 => 0x5844 case 9 => 0x4865 case 10 => 0x7806 case 11 => 0x6827 case 12 => 0x18C0 case 13 => 0x08E1 case 14 => 0x3882 case _ => 0x28A3
  }

  function TableRowD(c: bv8): bv16 {
    match c
    case 0 => 0xCB7D case 1 => 0xDB5C case 2 => 0xEB3F case 3 => 0xFB1E case 4 => 0x8BF9 case 5 => 0x9BD8 case 6 => 0xABBB case 7 => 0xBB9A
    case 8 => 0x4A75 case 9 => 0x5A54 case 10 => 0x6A37 case 11 => 0x7A16 case 12 => 0x0AF1 case 13 => 0x1AD0 case 14 => 0x2AB3 case _ => 0x3A92
  }

  function TableRowE(c: bv8): bv16 {
    match c
    case 0 => 0xFD2E case 1 => 0xED0F case 2 => 0xDD6C case 3 => 0xCD4D case 4 => 0xBDAA case 5 => 0xAD8B case 6 => 0x9DE8 case 7 => 0x8DC9
    case 8 => 0x7C26 case 9 => 0x6C07 case 10 => 0x5C64 case 11 => 0x4C45 case 12 => 0x3CA2 case 13 => 0x2C83 case 14 => 0x1CE0 case _ => 0x0CC1
  }

  function TableRowF(c: bv8): bv16 {
    match c
    case 0 => 0xEF1F case 1 => 0xFF3E case 2 => 0xCF5D case 3 => 0xDF7C case 4 => 0xAF9B case 5 => 0xBFBA case 6 => 0x8FD9 case 7 => 0x9FF8
    case 8 => 0x6E17 case 9 => 0x7E36 case 10 => 0x4E55 case 11 => 0x5E74 case 12 => 0x2E93 case 13 => 0x3EB2 case 14 => 0x0ED1 case _ => 0x1EF0
  }

  // The 256 entries, two source lines of eight to a row.
  function Ccitt16Table(i: bv8): bv16 {
    var c := i & 0x0F;
    match i >> 4
    case 0 => TableRow0(c)
    case 1 => TableRow1(c)
    case 2 => TableRow2(c)
    case 3 => TableRow3(c)
    case 4 => TableRow4(c)
    case 5 => TableRow5(c)
    case 6 => TableRow6(c)
    case 7 => TableRow7(c)
    case 8 => TableRow8(c)
    case 9 => TableRow9(c)
    case 10 => TableRowA(c)
    case 11 => TableRowB(c)
    case 12 => TableRowC(c)
    case 13 => TableRowD(c)
    case 14 => TableRowE(c)
    case _ => TableRowF(c)
  }

  // ------------------------------------------------------------- the algorithm

  // The int argument value is 32 bits wide; only its low byte reaches the table.
  function TableIndex(value: bv32, crcin: bv16): bv8 {
    ((((crcin >> 8) as bv32) ^ value) & 0xFF) as bv8
  }

  // crcin is always an earlier result, so 16 bits of it are enough: the cast to
  // unsigned short drops what the left shift pushes beyond bit 15.
  function ByteCRC16(value: bv32, crcin: bv16): bv16 {
    (crcin << 8) ^ Ccitt16Table(TableIndex(value, crcin))
  }

  // char (unsigned on this target) to int
  function ZeroExtend(b: bv8): bv32 {
    b as bv32
  }

  // short to int
  function SignExtend(w: bv16): bv32 {
    if w & 0x8000 != 0 then (w as bv32) | 0xFFFF_0000 else w as bv32
  }

  // int >> 8 on a signed operand
  function ArithmeticShift8(v: bv32): bv32 {
    if v & 0x8000_0000 != 0 then (v >> 8) | 0xFF00_0000 else v >> 8
  }

  // One byte into a 16-bit running CRC.
  function Feed(crc: bv16, b: bv8): bv16 {
    ByteCRC16(ZeroExtend(b), crc)
  }

  function CrcFrom(crc: bv16, msg: seq<bv8>): bv16
    decreases |msg|
  {
    if msg == [] then crc else CrcFrom(Feed(crc, msg[0]), msg[1..])
  }

  function Crc(msg: seq<bv8>): bv16 {
    CrcFrom(0, msg)
  }

  function Low(w: bv16): bv8 {
    (w & 0xFF) as bv8
  }

  function High(w: bv16): bv8 {
    (w >> 8) as bv8
  }

  // The byte order of the little-endian build: low byte of each word first.
  function WordBytes(words: seq<bv16>): (bytes: seq<bv8>)
    ensures |bytes| == 2 * |words|
  {
    if words == [] then []
    else WordBytes(words[..|words| - 1]) + [Low(words[|words| - 1]), High(words[|words| - 1])]
  }

  function CrcWords(words: seq<bv16>): bv16 {
    Crc(WordBytes(words))
  }

  method CalcCRC16Words(count: nat, buffer: array<bv16>) returns (crc: bv16)
    requires 1 <= count <= buffer.Length
    ensures crc == CrcWords(buffer[..count])
  {
    hide ByteCRC16, ZeroExtend, SignExtend, ArithmeticShift8, Crc, CrcWords;
    crc := 0;
    var left, pos := count, 0;
    CrcOfNothing();
    while true
      invariant 0 <= pos < count && left == count - pos
      invariant crc == CrcWords(buffer[..pos])
      decreases left
    {
      var value := SignExtend(buffer[pos]);
      assert buffer[..pos + 1] == buffer[..pos] + [buffer[pos]];
      CrcWordsSnoc(buffer[..pos], buffer[pos]);
      pos := pos + 1;
      crc := ByteCRC16(value, crc);
      crc := ByteCRC16(ArithmeticShift8(value), crc);
      left := left - 1;
      if left == 0 {
        break;
      }
    }
  }

  method CalcCRC16Bytes(count: nat, buffer: array<bv8>) returns (crc: bv16)
    requires 1 <= count <= buffer.Length
    ensures crc == Crc(buffer[..count])
  {
    hide ByteCRC16, ZeroExtend, SignExtend, ArithmeticShift8, Crc, CrcWords;
    crc := 0;
    var left, pos := count, 0;
    CrcOfNothing();
    while true
      invariant 0 <= pos < count && left == count - pos
      invariant crc == Crc(buffer[..pos])
      decreases left
    {
      var value := ZeroExtend(buffer[pos]);
      assert buffer[..pos + 1] == buffer[..pos] + [buffer[pos]];
      CrcSnoc(buffer[..pos], buffer[pos]);
      pos := pos + 1;
      crc := ByteCRC16(value, crc);
      left := left - 1;
      if left == 0 {
        break;
      }
    }
  }

  lemma LowIndex(w: bv16, crc: bv16)
    ensures TableIndex(SignExtend(w), crc) == TableIndex(ZeroExtend(Low(w)), crc)
  {
  }

  lemma HighIndex(w: bv16, crc: bv16)
    ensures TableIndex(ArithmeticShift8(SignExtend(w)), crc) == TableIndex(ZeroExtend(High(w)), crc)
  {
  }

  // Sign extension never reaches the table index.
  lemma LowByteFeeds(w: bv16, crc: bv16)
    ensures ByteCRC16(SignExtend(w), crc) == ByteCRC16(ZeroExtend(Low(w)), crc)
  {
    hide TableIndex, Ccitt16Table, SignExtend, ZeroExtend, Low;
    LowIndex(w, crc);
  }

  lemma HighByteFeeds(w: bv16, crc: bv16)
    ensures ByteCRC16(ArithmeticShift8(SignExtend(w)), crc) == ByteCRC16(ZeroExtend(High(w)), crc)
  {
    hide TableIndex, Ccitt16Table, SignExtend, ArithmeticShift8, ZeroExtend, High;
    HighIndex(w, crc);
  }

  lemma {:induction false} CrcAppend(crc: bv16, a: seq<bv8>, b: seq<bv8>)
    ensures CrcFrom(crc, a + b) == CrcFrom(CrcFrom(crc, a), b)
    decreases |a|
  {
    hide Feed;
    if a == [] {
      assert a + b == b;
    } else {
      assert (a + b)[1..] == a[1..] + b;
      CrcAppend(Feed(crc, a[0]), a[1..], b);
    }
  }

  lemma CrcOfNothing()
    ensures Crc([]) == 0
    ensures CrcWords([]) == 0
  {
  }

  lemma CrcSnoc(msg: seq<bv8>, b: bv8)
    ensures Crc(msg + [b]) == ByteCRC16(ZeroExtend(b), Crc(msg))
  {
    hide ByteCRC16, ZeroExtend;
    CrcAppend(0, msg, [b]);
  }

  lemma PairSnoc<T>(s: seq<T>, a: T, b: T)
    ensures s + [a, b] == s + [a] + [b]
  {
  }

  lemma WordBytesSnoc(words: seq<bv16>, w: bv16)
    ensures WordBytes(words + [w]) == WordBytes(words) + [Low(w)] + [High(w)]
  {
    hide Low, High;
    var more := words + [w];
    assert more[..|more| - 1] == words && more[|more| - 1] == w;
    PairSnoc(WordBytes(words), Low(w), High(w));
  }

  lemma HalvesMakeWord(w: bv16)
    ensures w == 256 * (High(w) as bv16) + (Low(w) as bv16)
  {
  }

  // Where the bytes of a word are: the lower half first.
  lemma WordBytesValues(words: seq<bv16>, k: nat)
    requires k < |words|
    ensures words[k] == (WordBytes(words)[2 * k] as bv16) + 256 * (WordBytes(words)[2 * k + 1] as bv16)
  {
    hide Low, High;
    WordBytesAt(words, k);
    HalvesMakeWord(words[k]);
  }

  lemma {:induction false} WordBytesAt(words: seq<bv16>, k: nat)
    requires k < |words|
    ensures WordBytes(words)[2 * k] == Low(words[k]) && WordBytes(words)[2 * k + 1] == High(words[k])
  {
    hide Low, High;
    if k < |words| - 1 {
      WordBytesAt(words[..|words| - 1], k);
    }
  }

  lemma CrcWordsSnoc(words: seq<bv16>, w: bv16)
    ensures CrcWords(words + [w])
         == ByteCRC16(ArithmeticShift8(SignExtend(w)), ByteCRC16(SignExtend(w), CrcWords(words)))
  {
    hide ByteCRC16, ZeroExtend, Crc, Low, High, SignExtend, ArithmeticShift8;
    var bytes := WordBytes(words);
    WordBytesSnoc(words, w);
    calc {
      CrcWords(words + [w]);
      Crc(bytes + [Low(w)] + [High(w)]);
      { CrcSnoc(bytes + [Low(w)], High(w)); }
      ByteCRC16(ZeroExtend(High(w)), Crc(bytes + [Low(w)]));
      { CrcSnoc(bytes, Low(w)); }
      ByteCRC16(ZeroExtend(High(w)), ByteCRC16(ZeroExtend(Low(w)), Crc(bytes)));
      { LowByteFeeds(w, Crc(bytes)); }
      ByteCRC16(ZeroExtend(High(w)), ByteCRC16(SignExtend(w), Crc(bytes)));
      { HighByteFeeds(w, ByteCRC16(SignExtend(w), Crc(bytes))); }
      ByteCRC16(ArithmeticShift8(SignExtend(w)), ByteCRC16(SignExtend(w), Crc(bytes)));
    }
  }

  // ------------------------------------- the table step is eight register steps

  function Lift(b: bv8): bv16 {
    (b as bv16) << 8
  }

  function EightSteps(r: bv16): bv16 {
    XTimes(XTimes(XTimes(XTimes(XTimes(XTimes(XTimes(XTimes(r))))))))
  }

  lemma TableFirstHalf(i: bv8)
    requires i < 0x80
    ensures Ccitt16Table(i) == EightSteps(Lift(i))
  {
  }

  lemma TableSecondHalf(i: bv8)
    requires i >= 0x80
    ensures Ccitt16Table(i) == EightSteps(Lift(i))
  {
  }

  lemma XPowEight(r: bv16)
    ensures XPow(8, r) == EightSteps(r)
  {
    hide XTimes;
    XPowAdds(4, 4, r);
    XPowFour(r);
    XPowFour(XPow(4, r));
  }

  lemma TableIsXPow(i: bv8)
    ensures Ccitt16Table(i) == XPow(8, Lift(i))
  {
    hide Ccitt16Table, Lift, EightSteps;
    XPowEight(Lift(i));
    if i < 0x80 {
      TableFirstHalf(i);
    } else {
      TableSecondHalf(i);
    }
  }

  lemma XTimesWithoutTop(r: bv16)
    requires r & 0xF000 == 0
    ensures XTimes(XTimes(XTimes(XTimes(r)))) == r << 4
  {
  }

  lemma XPowEightOfLow(r: bv16)
    requires r & 0xFF00 == 0
    ensures XPow(8, r) == r << 8
  {
    assert r & 0xF000 == 0;
    assert (r << 4) & 0xF000 == 0;
    assert (r << 4) << 4 == r << 8;
    XTimesWithoutTop(r);
    XTimesWithoutTop(r << 4);
    hide XTimes;
    XPowFour(r);
    XPowFour(r << 4);
    XPowAdds(4, 4, r);
  }

  lemma IndexOfByte(crc: bv16, b: bv8)
    ensures TableIndex(ZeroExtend(b), crc) == High(crc) ^ b
  {
  }

  lemma LiftXor(a: bv8, b: bv8)
    ensures Lift(a ^ b) == Xor(Lift(a), Lift(b))
  {
  }

  lemma Halves(crc: bv16)
    ensures crc == Xor(Lift(High(crc)), crc & 0xFF)
  {
  }

  lemma SplitRegister(crc: bv16, b: bv8)
    ensures Xor(crc, Lift(b)) == Xor(Lift(High(crc) ^ b), crc & 0xFF)
  {
    LiftXor(High(crc), b);
    Halves(crc);
    hide Xor, Lift, High;
    var top, low := Lift(High(crc)), crc & 0xFF;
    XorAssociative(top, low, Lift(b));
    XorCommutative(low, Lift(b));
    XorAssociative(top, Lift(b), low);
  }

  lemma FeedIsXPow(crc: bv16, b: bv8)
    ensures Feed(crc, b) == XPow(8, Xor(crc, Lift(b)))
  {
    var low := crc & 0xFF;
    assert low & 0xFF00 == 0;
    assert crc << 8 == low << 8;
    IndexOfByte(crc, b);
    assert Feed(crc, b) == Xor(low << 8, Ccitt16Table(High(crc) ^ b));
    var i := High(crc) ^ b;
    hide Xor, Ccitt16Table, Lift, Feed, High;
    SplitRegister(crc, b);
    XPowEightOfLow(low);
    TableIsXPow(i);
    XPowLinear(8, Lift(i), low);
    XorCommutative(XPow(8, Lift(i)), XPow(8, low));
  }

  // The bits of a byte, most significant first.
  function ByteBits(n: nat, b: bv8): (bits: seq<bool>)
    ensures |bits| == n
  {
    if n == 0 then [] else [b & 0x80 != 0] + ByteBits(n - 1, b << 1)
  }

  function ByteShl(n: nat, b: bv8): bv8 {
    if n == 0 then b else ByteShl(n - 1, b << 1)
  }

  // The message polynomial, most significant bit of the first byte first.
  function MessageBits(msg: seq<bv8>): seq<bool> {
    if msg == [] then [] else ByteBits(8, msg[0]) + MessageBits(msg[1..])
  }

  lemma LiftSplits(b: bv8)
    ensures Lift(b) == Xor(Top(b & 0x80 != 0), Lift(b & 0x7F))
  {
  }

  lemma LiftShifts(b: bv8)
    ensures XTimes(Lift(b & 0x7F)) == Lift(b << 1)
  {
  }

  // n register steps on r with the byte b lined up at the top feed the first n bits
  // of b and leave the rest lined up.
  lemma {:induction false} StepsFeedBits(n: nat, r: bv16, b: bv8)
    ensures XPow(n, Xor(r, Lift(b))) == Xor(Encode(r, ByteBits(n, b)), Lift(ByteShl(n, b)))
  {
    hide Xor, XTimes, Lift;
    if n != 0 {
      var bit := b & 0x80 != 0;
      LiftSplits(b);
      LiftShifts(b);
      XorAssociative(r, Top(bit), Lift(b & 0x7F));
      XTimesLinear(Xor(r, Top(bit)), Lift(b & 0x7F));
      StepsFeedBits(n - 1, XTimes(Xor(r, Top(bit))), b << 1);
      assert ByteBits(n, b)[1..] == ByteBits(n - 1, b << 1);
    }
  }

  lemma ByteShlEight(b: bv8)
    ensures ByteShl(8, b) == 0
  {
    assert ByteShl(8, b) == ByteShl(6, (b << 1) << 1);
    var c := (b << 1) << 1;
    assert ByteShl(6, c) == ByteShl(4, (c << 1) << 1);
    var d := (c << 1) << 1;
    assert ByteShl(4, d) == ByteShl(2, (d << 1) << 1);
    var e := (d << 1) << 1;
    assert ByteShl(2, e) == ByteShl(0, (e << 1) << 1);
    assert (e << 1) << 1 == b << 8 == 0;
  }

  lemma FeedIsEncode(crc: bv16, b: bv8)
    ensures Feed(crc, b) == Encode(crc, ByteBits(8, b))
  {
    assert Lift(0) == 0;
    hide Xor, XTimes, Lift, Feed;
    FeedIsXPow(crc, b);
    StepsFeedBits(8, crc, b);
    ByteShlEight(b);
    XorZero(Encode(crc, ByteBits(8, b)));
  }

  lemma {:induction false} EncodeAppend(r: bv16, a: seq<bool>, b: seq<bool>)
    ensures Encode(r, a + b) == Encode(Encode(r, a), b)
    decreases |a|
  {
    hide Xor, XTimes, Top;
    if a == [] {
      assert a + b == b;
    } else {
      assert (a + b)[1..] == a[1..] + b;
      EncodeAppend(XTimes(Xor(r, Top(a[0]))), a[1..], b);
    }
  }

  lemma {:induction false} CrcIsEncode(crc: bv16, msg: seq<bv8>)
    ensures CrcFrom(crc, msg) == Encode(crc, MessageBits(msg))
    decreases |msg|
  {
    hide Feed, ByteBits;
    if msg != [] {
      FeedIsEncode(crc, msg[0]);
      EncodeAppend(crc, ByteBits(8, msg[0]), MessageBits(msg[1..]));
      CrcIsEncode(Feed(crc, msg[0]), msg[1..]);
    }
  }

  // The table-driven CRC is the remainder of the message polynomial times x^16.
  lemma CrcIsRemainder(msg: seq<bv8>)
    ensures Bits(16, Crc(msg)) == Remainder(MessageBits(msg) + Zeros(16))
  {
    hide CrcFrom;
    CrcIsEncode(0, msg);
    EncodeIsRemainder(MessageBits(msg));
  }

  // -------------------------------------------------------------- linearity

  function XorBytes(a: seq<bv8>, b: seq<bv8>): (c: seq<bv8>)
    requires |a| == |b|
    ensures |c| == |a|
  {
    seq(|a|, k requires 0 <= k < |a| => a[k] ^ b[k])
  }

  lemma FeedLinear(c: bv16, d: bv16, a: bv8, b: bv8)
    ensures Feed(Xor(c, d), a ^ b) == Xor(Feed(c, a), Feed(d, b))
  {
    LiftXor(a, b);
    hide Xor, Lift, Feed;
    FeedIsXPow(c, a);
    FeedIsXPow(d, b);
    FeedIsXPow(Xor(c, d), a ^ b);
    XorInterchange(c, d, Lift(a), Lift(b));
    XPowLinear(8, Xor(c, Lift(a)), Xor(d, Lift(b)));
  }

  lemma {:induction false} CrcFromLinear(c: bv16, d: bv16, a: seq<bv8>, b: seq<bv8>)
    requires |a| == |b|
    ensures CrcFrom(Xor(c, d), XorBytes(a, b)) == Xor(CrcFrom(c, a), CrcFrom(d, b))
    decreases |a|
  {
    hide Xor, Feed;
    if a != [] {
      FeedLinear(c, d, a[0], b[0]);
      assert XorBytes(a, b)[1..] == XorBytes(a[1..], b[1..]);
      CrcFromLinear(Feed(c, a[0]), Feed(d, b[0]), a[1..], b[1..]);
    }
  }

  // The CRC of a bitwise exclusive or is the exclusive or of the CRCs.
  lemma CrcLinear(a: seq<bv8>, b: seq<bv8>)
    requires |a| == |b|
    ensures Crc(XorBytes(a, b)) == Crc(a) ^ Crc(b)
  {
    CrcFromLinear(0, 0, a, b);
  }

  // ------------------------------------------------------------------ residue

  lemma FeedOwnTopByte(crc: bv16)
    ensures Feed(Feed(crc, High(crc)), Low(crc)) == 0
  {
    assert High(crc) ^ High(crc) == 0;
    IndexOfByte(crc, High(crc));
    assert Ccitt16Table(0) == 0;
    assert Feed(crc, High(crc)) == crc << 8;
    var r := crc << 8;
    IndexOfByte(r, Low(crc));
    assert High(r) == Low(crc);
    assert High(r) ^ Low(crc) == 0;
    assert r << 8 == 0;
  }

  // A message followed by its own CRC, high byte first, has CRC zero.
  lemma CrcResidue(msg: seq<bv8>)
    ensures Crc(msg + [High(Crc(msg)), Low(Crc(msg))]) == 0
  {
    var crc := Crc(msg);
    FeedOwnTopByte(crc);
    hide Feed, High, Low;
    CrcAppend(0, msg, [High(crc), Low(crc)]);
    CrcOfTwo(crc, High(crc), Low(crc));
  }

  lemma CrcOfTwo(crc: bv16, a: bv8, b: bv8)
    ensures CrcFrom(crc, [a, b]) == Feed(Feed(crc, a), b)
  {
    hide Feed;
    assert [a, b][1..] == [b] && [b][1..] == [];
    assert CrcFrom(Feed(crc, a), [b]) == CrcFrom(Feed(Feed(crc, a), b), []);
  }

  // ---------------------------------------------------------- error detection

  lemma FeedInjective(c: bv16, d: bv16, b: bv8)
    requires Feed(c, b) == Feed(d, b)
    ensures c == d
  {
    hide Xor, Lift, Feed;
    FeedIsXPow(c, b);
    FeedIsXPow(d, b);
    XPowInjective(8, Xor(c, Lift(b)), Xor(d, Lift(b)));
    XorCancels(c, Lift(b));
    XorCancels(d, Lift(b));
  }

  lemma {:induction false} CrcFromInjective(c: bv16, d: bv16, msg: seq<bv8>)
    requires CrcFrom(c, msg) == CrcFrom(d, msg)
    ensures c == d
    decreases |msg|
  {
    hide Feed;
    if msg != [] {
      CrcFromInjective(Feed(c, msg[0]), Feed(d, msg[0]), msg[1..]);
      FeedInjective(c, d, msg[0]);
    }
  }

  // Two bytes fed in a row act on the register as one 16-bit word.
  lemma FeedTwoIsXPow(crc: bv16, a: bv8, b: bv8)
    ensures Feed(Feed(crc, a), b) == XPow(16, Xor(crc, Xor(Lift(a), b as bv16)))
  {
    var high := Xor(crc, Lift(a));
    assert (b as bv16) & 0xFF00 == 0;
    assert (b as bv16) << 8 == Lift(b);
    XPowEightOfLow(b as bv16);
    hide Xor, Lift, Feed;
    FeedIsXPow(crc, a);
    FeedIsXPow(XPow(8, high), b);
    XPowLinear(8, high, b as bv16);
    XPowAdds(8, 8, Xor(high, b as bv16));
    XorAssociative(crc, Lift(a), b as bv16);
  }

  lemma PairInjective(a: bv8, b: bv8, a': bv8, b': bv8)
    requires Xor(Lift(a), b as bv16) == Xor(Lift(a'), b' as bv16)
    ensures a == a' && b == b'
  {
    HighOfPair(a, b);
    HighOfPair(a', b');
    LowOfPair(a, b);
    LowOfPair(a', b');
    hide Xor, Lift, High, Low;
  }

  lemma HighOfPair(a: bv8, b: bv8)
    ensures High(Xor(Lift(a), b as bv16)) == a
  {
  }

  lemma LowOfPair(a: bv8, b: bv8)
    ensures Low(Xor(Lift(a), b as bv16)) == b
  {
  }

  lemma FeedTwoInjective(crc: bv16, a: bv8, b: bv8, a': bv8, b': bv8)
    requires Feed(Feed(crc, a), b) == Feed(Feed(crc, a'), b')
    ensures a == a' && b == b'
  {
    hide Xor, Lift, Feed;
    var p, q := Xor(Lift(a), b as bv16), Xor(Lift(a'), b' as bv16);
    FeedTwoIsXPow(crc, a, b);
    FeedTwoIsXPow(crc, a', b');
    XPowInjective(16, Xor(crc, p), Xor(crc, q));
    XorCommutative(crc, p);
    XorCommutative(crc, q);
    XorCancels(p, crc);
    XorCancels(q, crc);
    PairInjective(a, b, a', b');
  }

  // Every error burst confined to two consecutive bytes is detected: two messages of
  // equal length that agree outside positions k and k+1 have equal CRCs only when
  // they are equal.
  lemma BurstDetected(m: seq<bv8>, m': seq<bv8>, k: nat)
    requires |m| == |m'| && k + 2 <= |m|
    requires m[..k] == m'[..k] && m[k + 2..] == m'[k + 2..]
    ensures Crc(m) == Crc(m') <==> m == m'
  {
    hide Feed;
    var front, back := m[..k], m[k + 2..];
    CrcOfThreeParts(m, k);
    CrcOfThreeParts(m', k);
    if Crc(m) == Crc(m') {
      var c := CrcFrom(0, front);
      CrcFromInjective(Feed(Feed(c, m[k]), m[k + 1]), Feed(Feed(c, m'[k]), m'[k + 1]), back);
      FeedTwoInjective(c, m[k], m[k + 1], m'[k], m'[k + 1]);
      assert m == front + [m[k], m[k + 1]] + back;
      assert m' == front + [m'[k], m'[k + 1]] + back;
    }
  }

  lemma CrcOfThreeParts(m: seq<bv8>, k: nat)
    requires k + 2 <= |m|
    ensures Crc(m) == CrcFrom(Feed(Feed(CrcFrom(0, m[..k]), m[k]), m[k + 1]), m[k + 2..])
  {
    hide Feed;
    assert m == m[..k] + ([m[k], m[k + 1]] + m[k + 2..]);
    CrcAppend(0, m[..k], [m[k], m[k + 1]] + m[k + 2..]);
    CrcAppend(CrcFrom(0, m[..k]), [m[k], m[k + 1]], m[k + 2..]);
    CrcOfTwo(CrcFrom(0, m[..k]), m[k], m[k + 1]);
  }

  // One damaged 16-bit word is always detected.
  lemma DamagedWordDetected(words: seq<bv16>, words': seq<bv16>, k: nat)
    requires |words| == |words'| && k < |words|
    requires forall j :: 0 <= j < |words| && j != k ==> words[j] == words'[j]
    ensures CrcWords(words) == CrcWords(words') <==> words[k] == words'[k]
  {
    hide Crc, Low, High;
    var m, m' := WordBytes(words), WordBytes(words');
    forall j | 0 <= j < |m| && j != 2 * k && j != 2 * k + 1
      ensures m[j] == m'[j]
    {
      WordBytesAt(words, j / 2);
      WordBytesAt(words', j / 2);
      assert m[2 * (j / 2)] == m'[2 * (j / 2)] && m[2 * (j / 2) + 1] == m'[2 * (j / 2) + 1];
    }
    BurstDetected(m, m', 2 * k);
    WordBytesAt(words, k);
    WordBytesAt(words', k);
    if m == m' {
      assert Low(words[k]) == m[2 * k] == Low(words'[k]);
      assert High(words[k]) == m[2 * k + 1] == High(words'[k]);
      WordOfHalves(words[k], words'[k]);
    }
    if words[k] == words'[k] {
      assert words == words';
    }
  }

  lemma WordOfHalves(v: bv16, w: bv16)
    requires Low(v) == Low(w) && High(v) == High(w)
    ensures v == w
  {
    Halves(v);
    Halves(w);
    LowHalf(v);
    LowHalf(w);
    hide Xor, Lift, Low, High;
  }

  lemma LowHalf(w: bv16)
    ensures w & 0xFF == Low(w) as bv16
  {
  }

  // ------------------------------------------------------- odd numbers of bits

  function Bit(b: bool): nat {
    if b then 1 else 0
  }

  // the number of ones among the n top bits of a byte
  function Ones(n: nat, b: bv8): nat {
    if n == 0 then 0 else Bit(b & 0x80 != 0) + Ones(n - 1, b << 1)
  }

  // the number of bit positions in which two messages differ
  function Distance(m: seq<bv8>, m': seq<bv8>): nat
    requires |m| == |m'|
  {
    if m == [] then 0 else Ones(8, m[0] ^ m'[0]) + Distance(m[1..], m'[1..])
  }

  lemma TopOfLift(b: bv8)
    ensures TopSet(Lift(b)) == (b & 0x80 != 0)
  {
  }

  lemma ShlOfLift(b: bv8)
    ensures Shl(Lift(b)) == Lift(b << 1)
  {
  }

  lemma {:induction false} OnesParity(n: nat, b: bv8)
    requires ByteShl(n, b) == 0
    ensures Parity(n + 8, Lift(b)) == (Ones(n, b) % 2 == 1)
  {
    assert Lift(0) == 0;
    hide Lift, Shl, TopSet;
    if n == 0 {
      ParityOfZero(8);
    } else {
      TopOfLift(b);
      ShlOfLift(b);
      OnesParity(n - 1, b << 1);
    }
  }

  predicate Odd(w: bv16) {
    Parity(16, w)
  }

  lemma FeedParity(c: bv16, b: bv8)
    ensures Odd(Feed(c, b)) == (Odd(c) != Odd(Lift(b)))
  {
    hide Xor, Lift, Feed, Parity;
    FeedIsXPow(c, b);
    XPowKeepsParity(8, Xor(c, Lift(b)));
    ParityXor(16, c, Lift(b));
  }

  lemma ByteDistanceParity(a: bv8, b: bv8)
    ensures (Ones(8, a ^ b) % 2 == 1) == (Odd(Lift(a)) != Odd(Lift(b)))
  {
    hide Xor, Lift, Parity, Ones;
    LiftXor(a, b);
    ParityXor(16, Lift(a), Lift(b));
    ByteShlEight(a ^ b);
    OnesParity(8, a ^ b);
  }

  lemma {:induction false} DistanceParity(c: bv16, d: bv16, m: seq<bv8>, m': seq<bv8>)
    requires |m| == |m'|
    ensures (Odd(CrcFrom(c, m)) != Odd(CrcFrom(d, m')))
        == ((Distance(m, m') + Bit(Odd(c) != Odd(d))) % 2 == 1)
    decreases |m|
  {
    hide Feed, Odd, Ones, Lift;
    if m != [] {
      FeedParity(c, m[0]);
      FeedParity(d, m'[0]);
      ByteDistanceParity(m[0], m'[0]);
      DistanceParity(Feed(c, m[0]), Feed(d, m'[0]), m[1..], m'[1..]);
    }
  }

  // Every error in an odd number of bits is detected.
  lemma OddErrorDetected(m: seq<bv8>, m': seq<bv8>)
    requires |m| == |m'|
    requires Distance(m, m') % 2 == 1
    ensures Crc(m) != Crc(m')
  {
    hide Odd;
    DistanceParity(0, 0, m, m');
  }
}
