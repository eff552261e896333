// Model of i2c_setting_exe and execute_cmd of utilities/i2c_setting.cpp: a command text
// is parsed, carried out on the bus, and overwritten by its reply. What the bus answers
// is an input.
module I2cCommand {
  import opened Common
  import opened CString
  import opened I2cSetting

  const DATA_MAX_SIZE: nat := 32
  const BUF_SIZE: nat := 150

  // repeated: the transfer ends without a stop
  datatype BusCall =
    | NoCall
    | BusWrite(address: Byte, data: seq<Byte>, repeated: bool)
    | BusRead(address: Byte, size: nat, repeated: bool)

  predicate Accepted(text: string) {
    RequestOf(text) != REQ_NONE && |ArgumentDigits(text)| < DIGIT_LIMIT
  }

  function RegistersOf(text: string): (regs: seq<Byte>)
    ensures |regs| == ARG_MAX_NUM
  {
    Registers(RequestOf(text), Kept(ArgumentDigits(text)))
  }

  // the length register, cut to the room for data
  function Size(regs: seq<Byte>): (n: nat)
    requires |regs| == ARG_MAX_NUM
    ensures n <= DATA_MAX_SIZE
  {
    if regs[2] >= DATA_MAX_SIZE then DATA_MAX_SIZE else regs[2]
  }

  predicate IsRead(code: int) {
    code == REQ_RD || code == REQ_RD_NO_P
  }

  function CallOf(regs: seq<Byte>): BusCall
    requires |regs| == ARG_MAX_NUM
  {
    var repeated := regs[0] == REQ_WR_NO_P || regs[0] == REQ_RD_NO_P;
    if IsRead(regs[0]) then BusRead(regs[1], Size(regs), repeated)
    else BusWrite(regs[1], regs[3..3 + Size(regs)], repeated)
  }

  function ReplyTo(regs: seq<Byte>, ok: bool, answer: seq<Byte>): string
    requires |regs| == ARG_MAX_NUM
  {
    if !ok then "NG" else if IsRead(regs[0]) then "OK " + Print(answer) else "OK"
  }

  // A read of no bytes that works calls the printer with length 0, and the printer's
  // loop, which tests the length after each byte, does not end in its buffers.
  predicate RunsOff(regs: seq<Byte>, ok: bool)
    requires |regs| == ARG_MAX_NUM
  {
    IsRead(regs[0]) && ok && Size(regs) == 0
  }

  // sprintf of a constant text
  method PutText(buf: array<char>, text: string)
    requires |text| < buf.Length && NUL !in text
    modifies buf
    ensures buf[..|text|] == text && buf[|text|] == NUL && Text(buf[..]) == text
  {
    var i := 0;
    while i < |text|
      invariant 0 <= i <= |text| && buf[..i] == text[..i]
    {
      buf[i] := text[i];
      i := i + 1;
    }
    buf[i] := NUL;
    TextIs(buf[..], text);
  }

  // execute_cmd; answer is what a read delivers.
  method ExecuteCmd(buf: array<char>, regs: array<Byte>, ok: bool, answer: seq<Byte>) returns (call: BusCall, off: bool)
    requires buf.Length >= BUF_SIZE && regs.Length == ARG_MAX_NUM && regs[2] <= DATA_MAX_SIZE
    requires REQ_WR <= regs[0] <= REQ_RD_NO_P && |answer| == regs[2]
    modifies buf, regs
    ensures call == CallOf(old(regs[..])) && off == RunsOff(old(regs[..]), ok)
    ensures !off ==> Text(buf[..]) == ReplyTo(old(regs[..]), ok, answer)
  {
    call := CallOf(regs[..]);
    off := false;
    if !ok {
      PutText(buf, "NG");
    } else if IsRead(regs[0]) {
      PutText(buf, "OK ");
      if regs[2] == 0 {
        return call, true;
      }
      PrintAnswer(buf, regs, answer);
    } else {
      PutText(buf, "OK");
    }
  }

  // The bytes read arrive in the registers and are printed from there.
  method PrintAnswer(buf: array<char>, regs: array<Byte>, answer: seq<Byte>)
    requires buf.Length >= BUF_SIZE && regs.Length == ARG_MAX_NUM && 1 <= |answer| <= DATA_MAX_SIZE
    requires buf[..3] == "OK "
    modifies buf, regs
    ensures Text(buf[..]) == "OK " + Print(answer)
  {
    forall k | 0 <= k < |answer| {
      regs[3 + k] := answer[k];
    }
    assert regs[3..3 + |answer|] == answer;
    CharTo16Char(buf, 3, regs, 3, |answer|);
    PrintHasNoNul(answer);
    var n := 3 * |answer| - 1;
    assert buf[..3 + n] == "OK " + Print(answer) by {
      assert buf[..3 + n] == buf[..3] + buf[3..3 + n];
    }
    TextIs(buf[..], "OK " + Print(answer));
  }

  lemma {:induction false} PrintHasNoNul(bytes: seq<Byte>)
    ensures NUL !in Print(bytes)
  {
    if bytes != [] {
      PrintHasNoNul(bytes[..|bytes| - 1]);
    }
  }

  // i2c_setting_exe; delivered is what the bus has for a read, from its beginning.
  method I2cSettingExe(buf: array<char>, ok: bool, delivered: seq<Byte>) returns (accepted: bool, call: BusCall, off: bool)
    requires NUL in buf[..] && buf.Length >= BUF_SIZE && |delivered| == DATA_MAX_SIZE
    modifies buf
    ensures var text := Text(old(buf[..]));
      var regs := RegistersOf(text);
      && accepted == Accepted(text)
      && (!accepted ==> buf[..] == old(buf[..]) && call == NoCall && !off)
      && (accepted ==>
            && call == CallOf(regs) && off == RunsOff(regs, ok)
            && (!off ==> Text(buf[..]) == ReplyTo(regs, ok, delivered[..Size(regs)])))
  {
    hide Registers, Print;
    call, off := NoCall, false;
    var regs := new Byte[ARG_MAX_NUM](_ => 0);
    var ret := AnalysisCmd(buf, regs);
    accepted := ret != REQ_NONE;
    if accepted {
      ghost var parsed := regs[..];
      RequestRegister(ret, Kept(ArgumentDigits(Text(buf[..]))));
      if regs[2] >= DATA_MAX_SIZE {
        regs[2] := DATA_MAX_SIZE;
      }
      CutKeepsCall(parsed, regs[..]);
      call, off := ExecuteCmd(buf, regs, ok, delivered[..regs[2]]);
    }
  }

  lemma RequestRegister(code: Byte, digits: seq<nat>)
    requires forall k :: 0 <= k < |digits| ==> digits[k] < 16
    ensures Registers(code, digits)[0] == code
  {
  }

  lemma CutKeepsCall(parsed: seq<Byte>, regs: seq<Byte>)
    requires |parsed| == ARG_MAX_NUM && regs == parsed[2 := Size(parsed)]
    ensures Size(regs) == Size(parsed) == regs[2] && CallOf(regs) == CallOf(parsed)
    ensures forall ok :: RunsOff(regs, ok) <==> RunsOff(parsed, ok)
    ensures forall ok, answer :: ReplyTo(regs, ok, answer) == ReplyTo(parsed, ok, answer)
  {
  }

  // ------------------------------------------------------------ the properties

  // A text is accepted if and only if it starts with one of the four commands and has
  // fewer than 68 hex digits after it.
  lemma AcceptedIff(text: string)
    ensures Accepted(text) <==>
      || ("Wr:" <= text && |Digits(text[3..])| < 68)
      || ("Rd:" <= text && |Digits(text[3..])| < 68)
      || ("WrNoP:" <= text && |Digits(text[6..])| < 68)
      || ("RdNoP:" <= text && |Digits(text[6..])| < 68)
  {
    hide Digits;
    TellApart(text);
  }

  lemma TellApart(text: string)
    ensures "Wr:" <= text ==> RequestOf(text) == 1
    ensures "Rd:" <= text ==> RequestOf(text) == 2
    ensures "WrNoP:" <= text ==> RequestOf(text) == 3
    ensures "RdNoP:" <= text ==> RequestOf(text) == 4
  {
    if "Wr:" <= text {
      assert text[0] == 'W' && text[2] == ':';
    }
    if "Rd:" <= text {
      assert text[0] == 'R' && text[2] == ':';
    }
    if "WrNoP:" <= text {
      assert text[0] == 'W' && text[2] == 'N';
    }
    if "RdNoP:" <= text {
      assert text[0] == 'R' && text[2] == 'N';
    }
  }

  // Byte k of the arguments, two digits each; missing digits are 0.
  function Argument(text: string, k: nat): nat {
    var d := ArgumentDigits(text);
    16 * (if 2 * k < |d| then d[2 * k] else 0) + if 2 * k + 1 < |d| then d[2 * k + 1] else 0
  }

  // What every accepted command asks of the bus: the first byte is the address, the
  // second the length, cut to 32, and the others are the data.
  lemma BusCallIs(text: string)
    requires Accepted(text)
    ensures var call := CallOf(RegistersOf(text));
      var size := if Argument(text, 1) > 32 then 32 else Argument(text, 1);
      && (call.BusWrite? <==> "Wr:" <= text || "WrNoP:" <= text)
      && (call.BusRead? <==> "Rd:" <= text || "RdNoP:" <= text)
      && call.address == Argument(text, 0)
      && (call.repeated <==> "WrNoP:" <= text || "RdNoP:" <= text)
      && (call.BusRead? ==> call.size == size)
      && (call.BusWrite? ==> |call.data| == size && forall k :: 0 <= k < size ==> call.data[k] == Argument(text, 2 + k))
  {
    TellApart(text);
    RegistersHold(text);
    hide Argument, RegistersOf, RequestOf;
    var regs := RegistersOf(text);
    assert regs[1] == Argument(text, 0) && regs[2] == Argument(text, 1);
    var data := regs[3..3 + Size(regs)];
    forall k | 0 <= k < |data|
      ensures data[k] == Argument(text, 2 + k)
    {
      assert regs[3 + k] == Argument(text, 2 + k);
    }
  }

  lemma RegistersHold(text: string)
    requires Accepted(text)
    ensures var regs := RegistersOf(text);
      regs[0] == RequestOf(text) && forall k :: 1 <= k < 35 ==> regs[k] == Argument(text, k - 1)
  {
  }

  // The replies: NG when the bus call fails, OK after a write, OK and the bytes after a
  // read.
  lemma Replies(text: string, answer: seq<Byte>)
    requires Accepted(text)
    ensures ReplyTo(RegistersOf(text), false, answer) == "NG"
    ensures "Wr:" <= text || "WrNoP:" <= text ==> ReplyTo(RegistersOf(text), true, answer) == "OK"
    ensures "Rd:" <= text || "RdNoP:" <= text ==> ReplyTo(RegistersOf(text), true, answer) == "OK " + Print(answer)
  {
    hide Digits, Print;
    TellApart(text);
    RegistersHold(text);
  }

  // The printer is called with length 0 by exactly those accepted read commands whose
  // third and fourth hex digits are zero or missing, when the bus read works.
  lemma RunsOffIff(text: string, ok: bool)
    requires Accepted(text)
    ensures RunsOff(RegistersOf(text), ok)
       <==> IsRead(RequestOf(text)) && ok
            && forall k :: 2 <= k < 4 && k < |ArgumentDigits(text)| ==> ArgumentDigits(text)[k] == 0
  {
    var digits := ArgumentDigits(text);
    var regs := RegistersOf(text);
    assert regs[0] == RequestOf(text) && regs[2] == 16 * DigitAt(digits, 2) + DigitAt(digits, 3);
  }

  // Where the bytes of a command end up.
  lemma Layout(regs: seq<Byte>, code: Byte, address: Byte, size: Byte, data: seq<Byte>, zeros: seq<Byte>)
    requires |regs| == ARG_MAX_NUM && regs == [code] + ([address, size] + data) + zeros
    ensures regs[0] == code && regs[1] == address && regs[2] == size && 3 + |data| <= |regs|
    ensures regs[3..3 + |data|] == data
  {
  }

  lemma ParsedLayout(code: int, address: Byte, size: Byte, data: seq<Byte>)
    requires REQ_WR <= code <= REQ_RD_NO_P && |data| < DATA_MAX_SIZE
    ensures var text := PREFIXES[code] + Print([address, size] + data);
      && Accepted(text) && RequestOf(text) == code
      && var regs := RegistersOf(text);
         regs[0] == code && regs[1] == address && regs[2] == size && regs[3..3 + |data|] == data
  {
    var bytes := [address, size] + data;
    PrintThenParse(code, bytes);
    hide Registers, Print, RequestOf, Kept;
    Layout(RegistersOf(PREFIXES[code] + Print(bytes)), code, address, size, data, seq(ARG_MAX_NUM - 1 - |bytes|, _ => 0));
  }

  // A write command reaches the bus: the text made from an address, a length and as many
  // bytes writes exactly those bytes to that address.
  lemma WriteReachesBus(code: int, address: Byte, data: seq<Byte>)
    requires (code == REQ_WR || code == REQ_WR_NO_P) && |data| < DATA_MAX_SIZE
    ensures var text := PREFIXES[code] + Print([address, |data|] + data);
      && Accepted(text)
      && CallOf(RegistersOf(text)) == BusWrite(address, data, code == REQ_WR_NO_P)
  {
    hide Accepted, RegistersOf, RequestOf, Print;
    ParsedLayout(code, address, |data|, data);
  }

  // So does a read command, and its reply, read back, is what the bus delivered.
  lemma ReadReachesBus(code: int, address: Byte, size: nat, answer: seq<Byte>)
    requires IsRead(code) && 0 < size <= DATA_MAX_SIZE && |answer| == size
    ensures var text := PREFIXES[code] + Print([address, size]);
      && Accepted(text)
      && CallOf(RegistersOf(text)) == BusRead(address, size, code == REQ_RD_NO_P)
      && Digits(ReplyTo(RegistersOf(text), true, answer)) == Nibbles(answer)
  {
    hide Accepted, RegistersOf, RequestOf, Print, Nibbles;
    ParsedLayout(code, address, size, []);
    assert [address, size] + [] == [address, size];
    OkAnswerDigits(answer);
  }

  lemma OkAnswerDigits(answer: seq<Byte>)
    ensures Digits("OK " + Print(answer)) == Nibbles(answer)
  {
    DigitsOfPrint(answer);
    NoDigits("OK ");
    hide HexValue, Print, Nibbles;
    DigitsAppend("OK ", Print(answer));
  }
}
