// Model of the hex command parser and printer of utilities/i2c_setting.cpp.
module I2cSetting {
  import opened Common
  import opened CString

  const ARG_MAX_NUM: nat := 35
  const ARG_MAX_SIZE: nat := 2
  const DIGIT_LIMIT: nat := 2 * (ARG_MAX_NUM - 1)

  const REQ_NONE := 0
  const REQ_WR := 1
  const REQ_RD := 2
  const REQ_WR_NO_P := 3
  const REQ_RD_NO_P := 4

  // ------------------------------------------------------------------ digits

  const NOT_HEX := -1

  function HexValue(c: char): (v: int)
    ensures v == NOT_HEX || 0 <= v < 16
  {
    if '0' <= c <= '9' then c as int - 0x30
    else if 'A' <= c <= 'F' then c as int - 0x37
    else if 'a' <= c <= 'f' then c as int - 0x57
    else NOT_HEX
  }

  function HexChar(d: nat): char
    requires d < 16
  {
    if d < 10 then (0x30 + d) as char else (0x37 + d) as char
  }

  lemma HexCharValue(d: nat)
    requires d < 16
    ensures HexValue(HexChar(d)) == d
  {
  }

  // Each digit is one of two characters, upper or lower case, and nothing else is a digit.
  lemma HexValueIs(c: char, d: nat)
    requires d < 16
    ensures HexValue(c) == d <==> c == "0123456789ABCDEF"[d] || c == "0123456789abcdef"[d]
  {
  }

  // The hex digits of a text, in order; everything else is a separator.
  function Digits(text: string): (digits: seq<nat>)
    ensures forall k :: 0 <= k < |digits| ==> digits[k] < 16
  {
    if text == [] then []
    else
      var front := Digits(text[..|text| - 1]);
      var v := HexValue(text[|text| - 1]);
      if v == NOT_HEX then front else front + [v]
  }

  lemma DigitsSnoc(text: string, c: char)
    ensures Digits(text + [c]) == Digits(text) + if HexValue(c) == NOT_HEX then [] else [HexValue(c)]
  {
    assert (text + [c])[..|text|] == text;
  }

  lemma {:induction false} DigitsAppend(a: string, b: string)
    ensures Digits(a + b) == Digits(a) + Digits(b)
    decreases |b|
  {
    if b == [] {
      assert a + b == a;
    } else {
      var front := b[..|b| - 1];
      assert a + b == (a + front) + [b[|b| - 1]];
      DigitsAppend(a, front);
      DigitsSnoc(a + front, b[|b| - 1]);
    }
  }

  // ------------------------------------------------------------- commands

  const PREFIXES: seq<string> := ["", "Wr:", "Rd:", "WrNoP:", "RdNoP:"]

  function RequestOf(text: string): (code: int)
    ensures 0 <= code < |PREFIXES| && PREFIXES[code] <= text
  {
    if "Wr:" <= text then REQ_WR
    else if "Rd:" <= text then REQ_RD
    else if "WrNoP:" <= text then REQ_WR_NO_P
    else if "RdNoP:" <= text then REQ_RD_NO_P
    else REQ_NONE
  }

  function ArgumentDigits(text: string): seq<nat> {
    Digits(text[|PREFIXES[RequestOf(text)]|..])
  }

  function DigitAt(digits: seq<nat>, k: nat): nat {
    if k < |digits| then digits[k] else 0
  }

  // The registers a command leaves: the request, then the digits two by two, a last
  // single digit as the high half, then zeros.
  function Registers(code: Byte, digits: seq<nat>): (regs: seq<Byte>)
    requires forall k :: 0 <= k < |digits| ==> digits[k] < 16
    ensures |regs| == ARG_MAX_NUM
  {
    seq(ARG_MAX_NUM, i requires 0 <= i < ARG_MAX_NUM =>
      if i == 0 then code else 16 * DigitAt(digits, 2 * (i - 1)) + DigitAt(digits, 2 * (i - 1) + 1))
  }

  function Kept(digits: seq<nat>): seq<nat> {
    if |digits| > DIGIT_LIMIT then digits[..DIGIT_LIMIT] else digits
  }

  // ------------------------------------------------------------- the methods

  method StrToHex(c: char, dest: array<Byte>, at: nat, cnt: nat) returns (ok: bool)
    requires at < dest.Length
    requires cnt == 0 ==> dest[at] == 0
    requires cnt != 0 ==> dest[at] % 16 == 0
    modifies dest
    ensures ok <==> HexValue(c) != NOT_HEX
    ensures dest[at] == if !ok then old(dest[at])
                        else if cnt == 0 then 16 * HexValue(c) else old(dest[at]) + HexValue(c)
    ensures forall k :: 0 <= k < dest.Length && k != at ==> dest[k] == old(dest[k])
  {
    ok := true;
    var base := 0;
    if '0' <= c <= '9' {
      base := 0x30;
    } else if 'A' <= c <= 'F' {
      base := 0x37;
    } else if 'a' <= c <= 'f' {
      base := 0x57;
    } else {
      ok := false;
    }
    if ok {
      // a char keeps eight bits; nothing overflows here
      dest[at] := (dest[at] + (c as int - base)) % 0x100;
      if cnt == 0 {
        dest[at] := dest[at] * 0x10 % 0x100;
      }
    }
  }

  // One more digit fills in half a register.
  lemma RegistersSnoc(code: Byte, digits: seq<nat>, d: nat)
    requires forall k :: 0 <= k < |digits| ==> digits[k] < 16
    requires d < 16 && |digits| < DIGIT_LIMIT
    ensures var at := 1 + |digits| / 2;
      at < ARG_MAX_NUM &&
      Registers(code, digits + [d]) == Registers(code, digits)[at :=
        Registers(code, digits)[at] + if |digits| % 2 == 0 then 16 * d else d]
    ensures |digits| % 2 == 0 ==> Registers(code, digits)[1 + |digits| / 2] == 0
    ensures Registers(code, digits)[1 + |digits| / 2] % 16 == 0
  {
    var at := 1 + |digits| / 2;
    var before, after := Registers(code, digits), Registers(code, digits + [d]);
    assert forall k: nat :: k != |digits| ==> DigitAt(digits + [d], k) == DigitAt(digits, k);
    forall i | 0 <= i < ARG_MAX_NUM && i != at
      ensures after[i] == before[i]
    {
    }
  }

  // strncmp(buf, prefix, strlen(prefix)) == 0
  method StartsWith(buf: array<char>, prefix: string) returns (b: bool)
    requires NUL in buf[..] && NUL !in prefix
    ensures b <==> prefix <= Text(buf[..])
  {
    TextEnds(buf[..]);
    ghost var text := Text(buf[..]);
    var k := 0;
    while k < |prefix|
      invariant 0 <= k <= |prefix| && k <= |text| && prefix[..k] == text[..k]
    {
      assert k < |text| ==> buf[k] == text[k];
      if buf[k] != prefix[k] {
        return false;
      }
      k := k + 1;
    }
    b := true;
  }

  method ReadRequest(buf: array<char>) returns (ret: int)
    requires NUL in buf[..]
    ensures ret == RequestOf(Text(buf[..]))
  {
    var b := StartsWith(buf, "Wr:");
    if b {
      return REQ_WR;
    }
    b := StartsWith(buf, "Rd:");
    if b {
      return REQ_RD;
    }
    b := StartsWith(buf, "WrNoP:");
    if b {
      return REQ_WR_NO_P;
    }
    b := StartsWith(buf, "RdNoP:");
    ret := if b then REQ_RD_NO_P else REQ_NONE;
  }

  // buf holds a C string; regs comes in zeroed.
  method AnalysisCmd(buf: array<char>, regs: array<Byte>) returns (ret: int)
    requires NUL in buf[..]
    requires regs.Length == ARG_MAX_NUM && forall k :: 0 <= k < ARG_MAX_NUM ==> regs[k] == 0
    modifies regs
    ensures var text := Text(buf[..]);
      var digits := ArgumentDigits(text);
      && (ret == if |digits| < DIGIT_LIMIT then RequestOf(text) else REQ_NONE)
      && (RequestOf(text) == REQ_NONE ==> regs[..] == old(regs[..]))
      && (RequestOf(text) != REQ_NONE ==> regs[..] == Registers(RequestOf(text), Kept(digits)))
  {
    ret := ReadRequest(buf);
    if ret != REQ_NONE {
      regs[0] := ret;
      assert regs[..] == Registers(ret, []);
      var done := ReadArguments(buf, |PREFIXES[ret]|, regs);
      if !done {
        ret := REQ_NONE;
      }
    }
  }

  // What the argument loop has done with the first n characters of the arguments.
  ghost predicate Filled(regs: seq<Byte>, code: Byte, rest: string, n: nat)
    requires n <= |rest|
  {
    |Digits(rest[..n])| < DIGIT_LIMIT && regs == Registers(code, Digits(rest[..n]))
  }

  ghost function Seen(rest: string, n: nat): nat
    requires n <= |rest|
  {
    |Digits(rest[..n])|
  }

  // One character of the arguments; full when it is the digit too many.
  method ReadCharacter(c: char, regs: array<Byte>, argCnt: nat, byteCnt: nat, ghost code: Byte, ghost rest: string, ghost n: nat)
    returns (full: bool, args: nat, bytes: nat)
    requires n < |rest| && rest[n] == c
    requires regs.Length == ARG_MAX_NUM && Filled(regs[..], code, rest, n)
    requires argCnt == 1 + Seen(rest, n) / 2 && byteCnt == Seen(rest, n) % 2
    modifies regs
    ensures full ==> |Digits(rest)| >= DIGIT_LIMIT && regs[..] == Registers(code, Kept(Digits(rest)))
    ensures !full ==> Filled(regs[..], code, rest, n + 1)
    ensures !full ==> args == 1 + Seen(rest, n + 1) / 2 && bytes == Seen(rest, n + 1) % 2
  {
    hide HexValue, Registers;
    ghost var digits := Digits(rest[..n]);
    DigitsStep(rest, n);
    full, args, bytes := false, argCnt, byteCnt;
    RegistersSnoc(code, digits, if HexValue(c) == NOT_HEX then 0 else HexValue(c));
    ghost var before := regs[..];
    var ok := StrToHex(c, regs, argCnt, byteCnt);
    if ok {
      assert regs[..] == before[argCnt := regs[argCnt]];
      assert Digits(rest[..n + 1]) == digits + [HexValue(c)];
      assert regs[..] == Registers(code, digits + [HexValue(c)]);
      bytes := bytes + 1;
      if bytes >= ARG_MAX_SIZE {
        if argCnt + 1 >= ARG_MAX_NUM {
          assert Kept(Digits(rest)) == digits + [HexValue(c)];
          full := true;
        } else {
          args := argCnt + 1;
          bytes := 0;
        }
      }
    } else {
      assert regs[..] == before && Digits(rest[..n + 1]) == digits;
    }
  }

  // The argument loop; false when there are too many digits.
  method ReadArguments(buf: array<char>, start: nat, regs: array<Byte>) returns (done: bool)
    requires NUL in buf[..] && start <= |Text(buf[..])|
    requires regs.Length == ARG_MAX_NUM && regs[..] == Registers(regs[0], [])
    modifies regs
    ensures var digits := Digits(Text(buf[..])[start..]);
      && (done <==> |digits| < DIGIT_LIMIT)
      && regs[..] == Registers(old(regs[0]), Kept(digits))
  {
    hide Registers;
    TextEnds(buf[..]);
    ghost var rest := Text(buf[..])[start..];
    ghost var code := regs[0];
    var src := start;
    var argCnt: nat, byteCnt: nat := 1, 0;
    assert rest[..0] == [];
    while buf[src] != NUL
      invariant start <= src <= start + |rest|
      invariant Filled(regs[..], code, rest, src - start)
      invariant argCnt == 1 + Seen(rest, src - start) / 2 && byteCnt == Seen(rest, src - start) % 2
      decreases start + |rest| - src
    {
      assert src - start < |rest| && rest[src - start] == buf[src];
      var full, args, bytes := ReadCharacter(buf[src], regs, argCnt, byteCnt, code, rest, src - start);
      if full {
        return false;
      }
      argCnt, byteCnt := args, bytes;
      src := src + 1;
    }
    assert rest[..src - start] == rest;
    done := true;
  }

  lemma DigitsStep(text: string, n: nat)
    requires n < |text|
    ensures Digits(text[..n + 1])
         == Digits(text[..n]) + if HexValue(text[n]) == NOT_HEX then [] else [HexValue(text[n])]
    ensures Digits(text[..n + 1]) <= Digits(text)
  {
    hide HexValue;
    DigitsPrefix(text, n + 1);
    DigitsNext(text, n);
  }

  lemma DigitsNext(text: string, n: nat)
    requires n < |text|
    ensures Digits(text[..n + 1])
         == Digits(text[..n]) + if HexValue(text[n]) == NOT_HEX then [] else [HexValue(text[n])]
  {
    hide HexValue;
    assert text[..n + 1][..n] == text[..n];
  }

  // The digits of a beginning are a beginning of the digits.
  lemma DigitsPrefix(text: string, n: nat)
    requires n <= |text|
    ensures Digits(text[..n]) <= Digits(text)
  {
    hide HexValue;
    assert text == text[..n] + text[n..];
    DigitsAppend(text[..n], text[n..]);
  }

  // ------------------------------------------------------------------ printing

  // Two digits a byte, separated by commas.
  function Print(bytes: seq<Byte>): (text: string)
    ensures |text| == if bytes == [] then 0 else 3 * |bytes| - 1
  {
    if bytes == [] then []
    else
      var last := bytes[|bytes| - 1];
      var pair := [HexChar(last / 16), HexChar(last % 16)];
      if |bytes| == 1 then pair else Print(bytes[..|bytes| - 1]) + [','] + pair
  }

  // The text of the bytes, character by character: two upper-case digits, the upper half
  // first, and a comma before the next byte.
  lemma {:induction false} PrintIs(bytes: seq<Byte>, k: nat)
    requires k < |bytes|
    ensures Print(bytes)[3 * k] == "0123456789ABCDEF"[bytes[k] / 16]
    ensures Print(bytes)[3 * k + 1] == "0123456789ABCDEF"[bytes[k] % 16]
    ensures k + 1 < |bytes| ==> Print(bytes)[3 * k + 2] == ','
  {
    HexCharIs(bytes[k] / 16);
    HexCharIs(bytes[k] % 16);
    hide HexChar;
    if k + 1 < |bytes| {
      PrintIs(bytes[..|bytes| - 1], k);
    }
  }

  lemma HexCharIs(d: nat)
    requires d < 16
    ensures HexChar(d) == "0123456789ABCDEF"[d]
  {
  }

  lemma PrintSnoc(bytes: seq<Byte>, b: Byte)
    ensures Print(bytes + [b])
         == (if bytes == [] then [] else Print(bytes) + [',']) + [HexChar(b / 16), HexChar(b % 16)]
  {
    assert (bytes + [b])[..|bytes|] == bytes;
  }

  method CharTo16Char(dest: array<char>, start: nat, src: array<Byte>, from: nat, length: nat)
    requires length >= 1 && from + length <= src.Length && start + 3 * length <= dest.Length
    modifies dest
    ensures dest[start..start + 3 * length - 1] == Print(src[from..from + length])
    ensures dest[start + 3 * length - 1] == NUL
    ensures forall k :: 0 <= k < dest.Length && !(start <= k < start + 3 * length) ==> dest[k] == old(dest[k])
  {
    hide HexChar;
    ghost var text := [];
    var pos, at, left := start, from, length;
    while true
      invariant 0 < left <= length && at == from + length - left && pos == start + 3 * (length - left)
      invariant pos == start + |text| && dest[start..pos] == text
      invariant text == if left == length then [] else Print(src[from..at]) + [',']
      invariant forall k :: 0 <= k < dest.Length && !(start <= k < start + 3 * length) ==> dest[k] == old(dest[k])
      decreases left
    {
      assert src[from..at + 1] == src[from..at] + [src[at]];
      PrintSnoc(src[from..at], src[at]);
      PutPair(dest, start, pos, src[at], text);
      text := text + [HexChar(src[at] / 16), HexChar(src[at] % 16)];
      at := at + 1;
      left := left - 1;
      pos := pos + 2;
      if left != 0 {
        dest[pos] := ',';
        text := text + [','];
        pos := pos + 1;
      } else {
        break;
      }
    }
    dest[pos] := NUL;
  }

  // The two digits of one byte.
  method PutPair(dest: array<char>, ghost start: nat, pos: nat, b: Byte, ghost text: string)
    requires start <= pos && pos + 2 <= dest.Length && dest[start..pos] == text
    modifies dest
    ensures dest[start..pos + 2] == text + [HexChar(b / 16), HexChar(b % 16)]
    ensures forall k :: 0 <= k < dest.Length && !(pos <= k < pos + 2) ==> dest[k] == old(dest[k])
  {
    dest[pos] := HexChar(b / 16);
    dest[pos + 1] := HexChar(b % 16);
  }

  // ------------------------------------------------------------ the properties

  function Nibbles(bytes: seq<Byte>): (digits: seq<nat>)
    ensures |digits| == 2 * |bytes|
    ensures forall k :: 0 <= k < |digits| ==> digits[k] < 16
  {
    seq(2 * |bytes|, k requires 0 <= k < 2 * |bytes| => if k % 2 == 0 then bytes[k / 2] / 16 else bytes[k / 2] % 16)
  }

  lemma {:induction false} DigitsOfPrint(bytes: seq<Byte>)
    ensures Digits(Print(bytes)) == Nibbles(bytes)
  {
    if bytes != [] {
      var front, last := bytes[..|bytes| - 1], bytes[|bytes| - 1];
      DigitsOfPrint(front);
      var head := if front == [] then [] else Print(front) + [','];
      assert Print(bytes) == head + [HexChar(last / 16), HexChar(last % 16)];
      DigitsOfHead(front);
      DigitsOfPair(head, last);
      NibblesSnoc(bytes);
    }
  }

  lemma DigitsOfPair(head: string, b: Byte)
    ensures Digits(head + [HexChar(b / 16), HexChar(b % 16)]) == Digits(head) + [b / 16, b % 16]
  {
    var hi, lo := HexChar(b / 16), HexChar(b % 16);
    HexCharValue(b / 16);
    HexCharValue(b % 16);
    hide HexValue, HexChar;
    assert head + [hi, lo] == (head + [hi]) + [lo];
    DigitsSnoc(head, hi);
    DigitsSnoc(head + [hi], lo);
  }

  lemma DigitsOfHead(front: seq<Byte>)
    ensures Digits(if front == [] then [] else Print(front) + [',']) == Digits(Print(front))
  {
    if front != [] {
      DigitsSnoc(Print(front), ',');
    }
  }

  lemma NibblesSnoc(bytes: seq<Byte>)
    requires bytes != []
    ensures Nibbles(bytes)
         == Nibbles(bytes[..|bytes| - 1]) + [bytes[|bytes| - 1] / 16, bytes[|bytes| - 1] % 16]
  {
  }

  // Printing bytes and parsing the text gives the bytes back: a request followed by
  // the printed form of 1 to 33 bytes is accepted and its registers are exactly those
  // bytes, after the request code and before zeros.
  lemma PrintThenParse(code: int, bytes: seq<Byte>)
    requires REQ_WR <= code <= REQ_RD_NO_P && 1 <= |bytes| <= ARG_MAX_NUM - 2
    ensures var text := PREFIXES[code] + Print(bytes);
      && RequestOf(text) == code
      && |ArgumentDigits(text)| < DIGIT_LIMIT
      && Registers(code, Kept(ArgumentDigits(text)))
           == [code] + bytes + seq(ARG_MAX_NUM - 1 - |bytes|, _ => 0)
  {
    hide Registers;
    ArgumentsOfPrinted(code, bytes);
    RegistersOfNibbles(code, bytes);
  }

  lemma ArgumentsOfPrinted(code: int, bytes: seq<Byte>)
    requires REQ_WR <= code <= REQ_RD_NO_P
    ensures RequestOf(PREFIXES[code] + Print(bytes)) == code
    ensures ArgumentDigits(PREFIXES[code] + Print(bytes)) == Nibbles(bytes)
  {
    hide Nibbles;
    var text := PREFIXES[code] + Print(bytes);
    DigitsOfPrint(bytes);
    RequestOfPrefixed(code, Print(bytes));
    hide RequestOf;
    assert text[|PREFIXES[code]|..] == Print(bytes);
  }

  lemma RegistersOfNibbles(code: Byte, bytes: seq<Byte>)
    requires |bytes| <= ARG_MAX_NUM - 1
    ensures Registers(code, Nibbles(bytes)) == [code] + bytes + seq(ARG_MAX_NUM - 1 - |bytes|, _ => 0)
  {
    var digits := Nibbles(bytes);
    var regs := Registers(code, digits);
    var want := [code] + bytes + seq(ARG_MAX_NUM - 1 - |bytes|, _ => 0);
    forall i | 0 <= i < ARG_MAX_NUM
      ensures regs[i] == want[i]
    {
      if 1 <= i <= |bytes| {
        var b := bytes[i - 1];
        assert digits[2 * (i - 1)] == b / 16;
        assert digits[2 * (i - 1) + 1] == b % 16;
        assert regs[i] == 16 * (b / 16) + b % 16;
      }
    }
  }

  lemma RequestOfPrefixed(code: int, rest: string)
    requires REQ_WR <= code <= REQ_RD_NO_P
    ensures RequestOf(PREFIXES[code] + rest) == code
  {
    var text := PREFIXES[code] + rest;
    assert text[0] == PREFIXES[code][0] && text[1] == PREFIXES[code][1] && text[2] == PREFIXES[code][2];
  }

  // Only the digits matter: two texts whose characters have the same hex values (other
  // case, other separators) have the same digits ...
  lemma {:induction false} OnlyValuesMatter(a: string, b: string)
    requires |a| == |b| && forall i :: 0 <= i < |a| ==> HexValue(a[i]) == HexValue(b[i])
    ensures Digits(a) == Digits(b)
  {
    hide HexValue;
    if a != [] {
      OnlyValuesMatter(a[..|a| - 1], b[..|b| - 1]);
    }
  }

  // ... and separators can be put in or left out anywhere.
  lemma SeparatorsIgnored(a: string, separators: string, b: string)
    requires forall i :: 0 <= i < |separators| ==> HexValue(separators[i]) == NOT_HEX
    ensures Digits(a + separators + b) == Digits(a + b)
  {
    hide HexValue;
    EndingIgnored(a, separators);
    DigitsAppend(a + separators, b);
    DigitsAppend(a, b);
  }

  lemma EndingIgnored(a: string, separators: string)
    requires forall i :: 0 <= i < |separators| ==> HexValue(separators[i]) == NOT_HEX
    ensures Digits(a + separators) == Digits(a)
  {
    hide HexValue;
    NoDigits(separators);
    DigitsAppend(a, separators);
  }

  lemma {:induction false} NoDigits(separators: string)
    requires forall i :: 0 <= i < |separators| ==> HexValue(separators[i]) == NOT_HEX
    ensures Digits(separators) == []
  {
    hide HexValue;
    if separators != [] {
      NoDigits(separators[..|separators| - 1]);
    }
  }
}
