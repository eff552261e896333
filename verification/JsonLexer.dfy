// The JSON lexer as the token reader uses it: a byte at a time, on one flat object.
// The modes follow jsonsl_feed of HoikuCamApp/src/jsonsl.cpp, created for three levels.
// Its error callback returns 0, so a byte the lexer rejects is dropped without a report;
// inside a literal that decides whether the literal ever ends, so literals are followed
// on every input. A byte that breaks the structure of the object leads to mode Stray,
// about which nothing is said.
module JsonLexer {
  import opened Common
  import opened CString
  import opened GoogleDrive

  // What the lexer knows of the literal it is in: the kind its first bytes gave it,
  // whether a decimal point and an exponent were seen, the length of a word and the
  // last part of a number.
  datatype Sort = Unsigned | Signed | Dash | Zero | MinusZero | True | False | Null
  datatype Part = Digit | Point | Mark | Sign
  datatype Flags = Flags(sort: Sort, float: bool, exponent: bool, length: nat, last: Part)

  datatype Mode =
    | Start | WantKey(first: bool) | InKey | WantColon | WantValue | InString | InLiteral(literal: Flags)
    | WantComma | Done | Stray

  datatype Lexer = Lexer(mode: Mode, escaped: bool)

  predicate IsSpace(c: char) {
    c == ' ' || c == '\t' || c == '\n' || c == '\r'
  }

  // what ends a number or a word
  predicate EndsLiteral(c: char) {
    IsSpace(c) || c == '"' || c == ',' || c == ':' || c == '[' || c == '\\' || c == ']' || c == '{' || c == '}'
  }

  predicate IsDigit(c: char) {
    '0' <= c <= '9'
  }

  predicate StartsLiteral(c: char) {
    c == '-' || IsDigit(c) || c == 't' || c == 'f' || c == 'n'
  }

  datatype Taken = Taken(lexer: Lexer, events: seq<Event>)

  function To(mode: Mode, events: seq<Event>): Taken {
    Taken(Lexer(mode, false), events)
  }

  // A byte inside a key or a string.
  function TakenInText(l: Lexer, c: char, kind: Kind, next: Mode): Taken {
    if l.escaped then To(l.mode, [])
    else if c == '"' then To(next, [Pop(kind, 2)])
    else if c == '\\' then Taken(Lexer(l.mode, true), [])
    else To(l.mode, [])
  }

  // ------------------------------------------------------------------ literals

  function Begun(c: char): Flags
    requires StartsLiteral(c)
  {
    var sort := if c == '-' then Dash else if c == '0' then Zero else if c == 't' then True
                else if c == 'f' then False else if c == 'n' then Null else Unsigned;
    Flags(sort, false, false, 1, if sort == Unsigned then Digit else Sign)
  }

  predicate Whole(l: Flags) {
    !l.float && !l.exponent
  }

  // A byte of a number past its first digit; what does not fit is dropped.
  function Numeric(l: Flags, c: char): Flags {
    if IsDigit(c) then l.(last := Digit)
    else if c == '.' && !l.float then l.(float := true, last := Point)
    else if (c == 'e' || c == 'E') && !l.exponent then l.(exponent := true, last := Mark)
    else if (c == '-' || c == '+') && l.last == Mark then l.(last := Sign)
    else l
  }

  // A byte that does not end the literal. The letters of a word are checked, but a
  // wrong letter counts like a right one.
  function Continued(l: Flags, c: char): Flags {
    match l.sort
    case Unsigned => if Whole(l) && IsDigit(c) then l else Numeric(l, c)
    case Signed => if Whole(l) && IsDigit(c) then l else Numeric(l, c)
    case Dash => if c == '0' then l.(sort := MinusZero) else if IsDigit(c) then l.(sort := Signed) else l
    case Zero => if IsDigit(c) then l else Numeric(l.(sort := Unsigned), c)
    case MinusZero => Numeric(l, c)
    case _ => l.(length := l.length + 1)
  }

  // Whether a delimiter now ends the literal.
  predicate CanEnd(l: Flags) {
    match l.sort
    case Unsigned => Whole(l) || l.last == Digit
    case Signed => Whole(l) || l.last == Digit
    case Dash => false
    case Zero => true
    case MinusZero => Whole(l) || l.last == Digit
    case True => l.length == 4
    case False => l.length == 5
    case Null => l.length == 4
  }

  // The structural byte after a value.
  function TakenAfterValue(c: char): Taken {
    if c == ',' then To(WantKey(false), [])
    else if c == '}' then To(Done, [Pop(Object, 1)])
    else if c == ']' then To(Stray, [])
    else To(WantComma, [])
  }

  function TakenInLiteral(l: Lexer, literal: Flags, c: char): Taken {
    if !EndsLiteral(c) then To(InLiteral(Continued(literal, c)), [])
    else if !CanEnd(literal) then To(l.mode, [])
    else
      var t := TakenAfterValue(c);
      Taken(t.lexer, [Pop(Special, 2)] + t.events)
  }

  function Take(l: Lexer, c: char): Taken {
    match l.mode
    case Start =>
      if c == '{' then To(WantKey(true), [Push(Object, c)])
      else if IsSpace(c) then To(Start, []) else To(Stray, [])
    case WantKey(first) =>
      if c == '"' then To(InKey, [Push(Hkey, c)])
      else if c == '}' && first then To(Done, [Pop(Object, 1)])
      else if c == ']' && first then To(Stray, [])
      else To(l.mode, [])
    case InKey => TakenInText(l, c, Hkey, WantColon)
    case WantColon =>
      if c == ':' then To(WantValue, [])
      else if c == '"' || c == '}' || c == ']' || StartsLiteral(c) then To(Stray, [])
      else To(WantColon, [])
    case WantValue =>
      if c == '"' then To(InString, [Push(Str, c)])
      else if StartsLiteral(c) then To(InLiteral(Begun(c)), [Push(Special, c)])
      else if c == '{' || c == '[' || c == '}' || c == ']' then To(Stray, [])
      else To(WantValue, [])
    case InString => TakenInText(l, c, Str, WantComma)
    case InLiteral(literal) => TakenInLiteral(l, literal, c)
    case WantComma => if c == '"' then To(Stray, []) else TakenAfterValue(c)
    case Done => if IsSpace(c) then To(Done, []) else To(Stray, [])
    case Stray => To(Stray, [])
  }

  // The bytes of a piece of the reply, each with what is reported while it is taken.
  function Reports(l: Lexer, bytes: string): (feeds: seq<Feed>)
    ensures |feeds| == |bytes|
    decreases |bytes|
  {
    if bytes == [] then [] else [Feed(bytes[0], Take(l, bytes[0]).events)] + Reports(Take(l, bytes[0]).lexer, bytes[1..])
  }

  function After(l: Lexer, bytes: string): Lexer
    decreases |bytes|
  {
    if bytes == [] then l else After(Take(l, bytes[0]).lexer, bytes[1..])
  }

  lemma {:induction false} ReportsAppend(l: Lexer, a: string, b: string)
    ensures Reports(l, a + b) == Reports(l, a) + Reports(After(l, a), b)
    ensures After(l, a + b) == After(After(l, a), b)
    decreases |a|
  {
    hide Take;
    if a == [] {
      assert a + b == b;
    } else {
      assert (a + b)[0] == a[0] && (a + b)[1..] == a[1..] + b;
      ReportsAppend(Take(l, a[0]).lexer, a[1..], b);
    }
  }

  lemma ReportsOne(l: Lexer, c: char)
    ensures Reports(l, [c]) == [Feed(c, Take(l, c).events)] && After(l, [c]) == Take(l, c).lexer
  {
    hide Take;
    assert [c][1..] == [];
    assert After(Take(l, c).lexer, []) == Take(l, c).lexer;
    assert Reports(Take(l, c).lexer, []) == [];
  }

  // ------------------------------------------------------------- well-formed text

  ghost predicate Spaces(gap: string) {
    forall k :: 0 <= k < |gap| ==> IsSpace(gap[k])
  }

  // A text that can stand between quotes: every quote in it is escaped and it does not
  // end in the middle of an escape.
  ghost predicate Quotable(text: string, escaped: bool) {
    if text == [] then !escaped
    else if escaped then Quotable(text[1..], false)
    else text[0] != '"' && Quotable(text[1..], text[0] == '\\')
  }

  // The bytes of a literal up to the first delimiter, right or wrong.
  ghost predicate LiteralBytes(text: string) {
    && text != [] && StartsLiteral(text[0])
    && forall k :: 0 <= k < |text| ==> !EndsLiteral(text[k])
  }

  predicate IsMark(c: char) {
    c == 'e' || c == 'E'
  }

  predicate HasMark(text: string) {
    'e' in text || 'E' in text
  }

  // The first decimal point of a text, or its first exponent mark.
  ghost predicate FirstOfItsKind(text: string, i: nat) {
    && i < |text|
    && ((text[i] == '.' && '.' !in text[..i]) || (IsMark(text[i]) && !HasMark(text[..i])))
  }

  // Behind its first digit a number is finished when a digit follows its first decimal
  // point and one follows its first exponent mark.
  ghost predicate Finished(text: string) {
    forall i: nat :: FirstOfItsKind(text, i) ==> exists j :: i < j < |text| && IsDigit(text[j])
  }

  // What stands behind the first digit.
  function BehindDigit(text: string): Option<string> {
    if text == [] then None else if IsDigit(text[0]) then Some(text[1..]) else BehindDigit(text[1..])
  }

  // A literal that its delimiter ends: a word by its length alone, a number when it
  // has a digit and is finished behind it.
  ghost predicate Complete(text: string)
    requires LiteralBytes(text)
  {
    if text[0] == 't' || text[0] == 'n' then |text| == 4
    else if text[0] == 'f' then |text| == 5
    else BehindDigit(text).Some? && Finished(BehindDigit(text).value)
  }

  ghost predicate LiteralText(text: string) {
    LiteralBytes(text) && Complete(text)
  }

  ghost predicate Lexical(m: Member) {
    && WellFormed(m)
    && Spaces(m.gap0) && Spaces(m.gap1) && Spaces(m.gap2) && Spaces(m.gap3)
    && Quotable(m.key, false)
    && (if m.value.Quote? then Quotable(m.value.text, false) else LiteralText(m.value.text))
  }

  ghost predicate AllLexical(ms: seq<Member>): (b: bool)
    ensures b ==> forall k :: 0 <= k < |ms| ==> WellFormed(ms[k])
  {
    if ms == [] then true
    else
      var rest := AllLexical(ms[1..]);
      assert rest ==> forall k :: 1 <= k < |ms| ==> ms[k] == ms[1..][k - 1];
      Lexical(ms[0]) && rest
  }

  function ValueBytes(v: Value): string {
    if v.Quote? then ['"'] + v.text + ['"'] else v.text
  }

  function MemberBytes(m: Member, ending: char): string {
    m.gap0 + (['"'] + m.key + ['"']) + (m.gap1 + ":" + m.gap2) + ValueBytes(m.value) + (m.gap3 + [ending])
  }

  function MembersBytes(ms: seq<Member>): string {
    if ms == [] then [] else MemberBytes(ms[0], if |ms| == 1 then '}' else ',') + MembersBytes(ms[1..])
  }

  // The text of a flat object with at least one member.
  function ObjectBytes(ms: seq<Member>): string {
    "{" + MembersBytes(ms)
  }

  // -------------------------------------------------------- what the lexer makes of it

  lemma {:induction false} SpacesAreQuiet(l: Lexer, gap: string)
    requires Spaces(gap) && !l.escaped
    requires l.mode.WantKey? || l.mode.WantColon? || l.mode.WantValue? || l.mode.WantComma?
    ensures Reports(l, gap) == Quiet(gap) && After(l, gap) == l
    decreases |gap|
  {
    if gap != [] {
      assert IsSpace(gap[0]) && Take(l, gap[0]) == Taken(l, []);
      assert Quiet(gap) == [Feed(gap[0], [])] + Quiet(gap[1..]);
      SpacesAreQuiet(l, gap[1..]);
    }
  }

  lemma {:induction false} TextIsQuiet(l: Lexer, text: string)
    requires Quotable(text, l.escaped) && (l.mode.InKey? || l.mode.InString?)
    ensures Reports(l, text) == Quiet(text) && After(l, text) == Lexer(l.mode, false)
    decreases |text|
  {
    if text != [] {
      assert Quiet(text) == [Feed(text[0], [])] + Quiet(text[1..]);
      TextIsQuiet(Take(l, text[0]).lexer, text[1..]);
    }
  }

  function LiteralAfter(l: Flags, text: string): Flags
    decreases |text|
  {
    if text == [] then l else LiteralAfter(Continued(l, text[0]), text[1..])
  }

  // Up to its delimiter a literal reports nothing more.
  lemma {:induction false} LiteralIsQuiet(l: Flags, text: string)
    requires forall k :: 0 <= k < |text| ==> !EndsLiteral(text[k])
    ensures Reports(Lexer(InLiteral(l), false), text) == Quiet(text)
    ensures After(Lexer(InLiteral(l), false), text) == Lexer(InLiteral(LiteralAfter(l, text)), false)
    decreases |text|
  {
    hide Continued;
    if text != [] {
      assert Quiet(text) == [Feed(text[0], [])] + Quiet(text[1..]);
      LiteralIsQuiet(Continued(l, text[0]), text[1..]);
    }
  }

  lemma {:induction false} WordAfter(l: Flags, text: string)
    requires l.sort == True || l.sort == False || l.sort == Null
    ensures LiteralAfter(l, text) == l.(length := l.length + |text|)
    decreases |text|
  {
    if text != [] {
      WordAfter(l.(length := l.length + 1), text[1..]);
    }
  }

  // ---- numbers: what the flags say about the bytes behind the first digit

  ghost predicate Waiting(text: string) {
    !Finished(text)
  }

  // One byte more: a digit finishes a number, a first point or mark makes it wait.
  lemma WaitingSnoc(text: string, c: char)
    ensures Waiting(text + [c]) <==>
      !IsDigit(c) && ((c == '.' && '.' !in text) || (IsMark(c) && !HasMark(text)) || Waiting(text))
  {
    var more := text + [c];
    assert forall i :: 0 <= i < |text| ==> more[i] == text[i] && more[..i] == text[..i];
    assert more[..|text|] == text;
    if IsDigit(c) {
      assert forall i: nat :: FirstOfItsKind(more, i) ==> i < |text| && IsDigit(more[|text|]);
    } else if FirstOfItsKind(more, |text|) {
      assert !Finished(more);
    } else if Waiting(text) {
      var i: nat :| FirstOfItsKind(text, i) && forall j :: i < j < |text| ==> !IsDigit(text[j]);
      assert FirstOfItsKind(more, i);
    } else {
      forall i: nat | FirstOfItsKind(more, i)
        ensures exists j :: i < j < |more| && IsDigit(more[j])
      {
        assert FirstOfItsKind(text, i);
        var j :| i < j < |text| && IsDigit(text[j]);
        assert IsDigit(more[j]);
      }
    }
  }

  // The flags after the bytes seen behind the first digit.
  ghost predicate Tracks(l: Flags, seen: string) {
    && (l.sort == Unsigned || l.sort == Signed || l.sort == MinusZero || (l.sort == Zero && Whole(l)))
    && (l.float <==> '.' in seen) && (l.exponent <==> HasMark(seen))
    && (!Whole(l) ==> (Waiting(seen) <==> l.last != Digit))
    && (Whole(l) ==> !Waiting(seen))
  }

  lemma TracksSnoc(l: Flags, seen: string, c: char)
    requires Tracks(l, seen)
    ensures Tracks(Continued(l, c), seen + [c])
  {
    hide Finished;
    WaitingSnoc(seen, c);
    hide Waiting;
  }

  lemma {:induction false} TracksAll(l: Flags, seen: string, text: string)
    requires Tracks(l, seen)
    ensures Tracks(LiteralAfter(l, text), seen + text)
    decreases |text|
  {
    hide Tracks, Continued;
    if text == [] {
      assert seen + text == seen;
    } else {
      TracksSnoc(l, seen, text[0]);
      TracksAll(Continued(l, text[0]), seen + [text[0]], text[1..]);
      assert seen + [text[0]] + text[1..] == seen + text;
    }
  }

  lemma TracksNothing(l: Flags)
    requires l.sort == Unsigned || l.sort == Signed || l.sort == MinusZero || l.sort == Zero
    requires Whole(l)
    ensures Tracks(l, [])
  {
  }

  lemma TracksCanEnd(l: Flags, seen: string)
    requires Tracks(l, seen)
    ensures CanEnd(l) <==> Finished(seen)
  {
    hide Finished;
  }

  lemma {:induction false} DashAfter(l: Flags, text: string)
    requires l.sort == Dash && Whole(l)
    ensures CanEnd(LiteralAfter(l, text)) <==> BehindDigit(text).Some? && Finished(BehindDigit(text).value)
    decreases |text|
  {
    hide Finished;
    if text != [] {
      if IsDigit(text[0]) {
        var next := Continued(l, text[0]);
        TracksNothing(next);
        TracksAll(next, [], text[1..]);
        assert [] + text[1..] == text[1..];
        TracksCanEnd(LiteralAfter(next, text[1..]), text[1..]);
      } else {
        DashAfter(l, text[1..]);
      }
    }
  }

  lemma LiteralAtDelimiter(text: string)
    requires LiteralBytes(text)
    ensures CanEnd(LiteralAfter(Begun(text[0]), text[1..])) <==> Complete(text)
  {
    hide Finished;
    var l, rest := Begun(text[0]), text[1..];
    if text[0] == '-' {
      DashAfter(l, rest);
      assert BehindDigit(text) == BehindDigit(rest);
    } else if IsDigit(text[0]) {
      TracksNothing(l);
      TracksAll(l, [], rest);
      assert [] + rest == rest;
      TracksCanEnd(LiteralAfter(l, rest), rest);
    } else {
      WordAfter(l, rest);
    }
  }

  // For every literal and every delimiter: the literal is reported as finished if and
  // only if it is complete, and otherwise the delimiter is dropped and the lexer stays
  // inside the literal.
  lemma LiteralEndsIff(text: string, c: char)
    requires LiteralBytes(text) && EndsLiteral(c)
    ensures var before := After(Lexer(WantValue, false), text);
      var t := Take(before, c);
      && before.mode.InLiteral?
      && (Pop(Special, 2) in t.events <==> Complete(text))
      && (!Complete(text) ==> t == Taken(before, []))
  {
    LiteralReports(text);
    LiteralAtDelimiter(text);
  }

  // A word that has grown too long swallows the rest of the reply, whatever follows.
  lemma {:induction false} OverlongSwallows(l: Flags, bytes: string)
    requires (l.sort == True && l.length > 4) || (l.sort == False && l.length > 5) || (l.sort == Null && l.length > 4)
    ensures Reports(Lexer(InLiteral(l), false), bytes) == Quiet(bytes)
    decreases |bytes|
  {
    if bytes != [] {
      assert Quiet(bytes) == [Feed(bytes[0], [])] + Quiet(bytes[1..]);
      OverlongSwallows(if EndsLiteral(bytes[0]) then l else Continued(l, bytes[0]), bytes[1..]);
    }
  }

  lemma QuotedReports(l: Lexer, kind: Kind, text: string)
    requires !l.escaped && Quotable(text, false)
    requires (kind == Hkey && l.mode.WantKey?) || (kind == Str && l.mode.WantValue?)
    ensures Reports(l, ['"'] + text + ['"']) == Quoted(kind, text)
    ensures After(l, ['"'] + text + ['"']) == Lexer(if kind == Hkey then WantColon else WantComma, false)
  {
    var inside := Lexer(if kind == Hkey then InKey else InString, false);
    ReportsOne(l, '"');
    ReportsAppend(l, ['"'], text);
    TextIsQuiet(inside, text);
    ReportsAppend(l, ['"'] + text, ['"']);
    ReportsOne(inside, '"');
  }

  lemma ColonReports(m: Member)
    requires Spaces(m.gap1) && Spaces(m.gap2)
    ensures var l, bytes := Lexer(WantColon, false), m.gap1 + ":" + m.gap2;
      Reports(l, bytes) == Quiet(bytes) && After(l, bytes) == Lexer(WantValue, false)
  {
    var l, bytes := Lexer(WantColon, false), m.gap1 + ":" + m.gap2;
    SpacesAreQuiet(l, m.gap1);
    ReportsAppend(l, m.gap1, ":");
    ReportsOne(l, ':');
    ReportsAppend(l, m.gap1 + ":", m.gap2);
    SpacesAreQuiet(Lexer(WantValue, false), m.gap2);
    assert Quiet(bytes) == Quiet(m.gap1) + [Feed(':', [])] + Quiet(m.gap2);
  }

  function EndingOf(c: char): Feed {
    if c == ',' then COMMA else CLOSE
  }

  function Follow(c: char): Lexer {
    Lexer(if c == ',' then WantKey(false) else Done, false)
  }

  lemma QuoteTail(m: Member, c: char)
    requires m.value.Quote? && Spaces(m.gap3) && (c == ',' || c == '}')
    ensures var l := Lexer(WantComma, false);
      Reports(l, m.gap3 + [c]) == Tail(m, EndingOf(c)) && After(l, m.gap3 + [c]) == Follow(c)
  {
    var l := Lexer(WantComma, false);
    SpacesAreQuiet(l, m.gap3);
    ReportsAppend(l, m.gap3, [c]);
    ReportsOne(l, c);
  }

  lemma LiteralTailReports(m: Member, literal: Flags, c: char)
    requires m.value.Literal? && Spaces(m.gap3) && (c == ',' || c == '}') && CanEnd(literal)
    ensures var l := Lexer(InLiteral(literal), false);
      Reports(l, m.gap3 + [c]) == Tail(m, EndingOf(c)) && After(l, m.gap3 + [c]) == Follow(c)
  {
    hide CanEnd;
    var l, mid := Lexer(InLiteral(literal), false), Lexer(WantComma, false);
    if m.gap3 == [] {
      assert m.gap3 + [c] == [c];
      ReportsOne(l, c);
    } else {
      var first, rest := [m.gap3[0]], m.gap3[1..];
      assert IsSpace(m.gap3[0]) && Take(l, m.gap3[0]) == Taken(mid, [Pop(Special, 2)]);
      ReportsOne(l, m.gap3[0]);
      assert m.gap3 + [c] == first + (rest + [c]);
      ReportsAppend(l, first, rest + [c]);
      SpacesAreQuiet(mid, rest);
      ReportsAppend(mid, rest, [c]);
      ReportsOne(mid, c);
      assert Tail(m, EndingOf(c)) == [Feed(m.gap3[0], [Pop(Special, 2)])] + (Quiet(rest) + [EndingOf(c)]);
    }
  }

  lemma LiteralReports(text: string)
    requires LiteralBytes(text)
    ensures var l := Lexer(WantValue, false);
      && Reports(l, text) == FirstOf(text)
      && After(l, text) == Lexer(InLiteral(LiteralAfter(Begun(text[0]), text[1..])), false)
  {
    var l := Lexer(WantValue, false);
    var first, rest := [text[0]], text[1..];
    assert text == first + rest;
    ReportsOne(l, text[0]);
    ReportsAppend(l, first, rest);
    LiteralIsQuiet(Begun(text[0]), rest);
  }

  lemma ValueReports(m: Member, c: char)
    requires Lexical(m) && (c == ',' || c == '}')
    ensures var l, bytes := Lexer(WantValue, false), ValueBytes(m.value) + (m.gap3 + [c]);
      var feeds := if m.value.Quote? then Quoted(Str, m.value.text) else FirstOf(m.value.text);
      Reports(l, bytes) == feeds + Tail(m, EndingOf(c)) && After(l, bytes) == Follow(c)
  {
    var l := Lexer(WantValue, false);
    ReportsAppend(l, ValueBytes(m.value), m.gap3 + [c]);
    if m.value.Quote? {
      QuotedReports(l, Str, m.value.text);
      QuoteTail(m, c);
    } else {
      LiteralReports(m.value.text);
      LiteralAtDelimiter(m.value.text);
      LiteralTailReports(m, LiteralAfter(Begun(m.value.text[0]), m.value.text[1..]), c);
    }
  }

  lemma MemberReports(l: Lexer, m: Member, c: char)
    requires Lexical(m) && (c == ',' || c == '}') && l.mode.WantKey? && !l.escaped
    ensures Reports(l, MemberBytes(m, c)) == MemberFeeds(m, EndingOf(c))
    ensures After(l, MemberBytes(m, c)) == Follow(c)
  {
    hide Quiet, Quoted, FirstOf, Tail, Quotable, LiteralText, ValueBytes, Follow, EndingOf, Take;
    var key, colon := ['"'] + m.key + ['"'], m.gap1 + ":" + m.gap2;
    var value := ValueBytes(m.value) + (m.gap3 + [c]);
    SpacesAreQuiet(l, m.gap0);
    ReportsAppend(l, m.gap0, key);
    QuotedReports(l, Hkey, m.key);
    ReportsAppend(l, m.gap0 + key, colon);
    ColonReports(m);
    ReportsAppend(l, m.gap0 + key + colon, value);
    ValueReports(m, c);
    assert MemberBytes(m, c) == m.gap0 + key + colon + value;
  }

  lemma {:induction false} MembersReports(l: Lexer, ms: seq<Member>)
    requires ms != [] && l.mode.WantKey? && !l.escaped
    requires AllLexical(ms)
    ensures Reports(l, MembersBytes(ms)) == MembersFeeds(ms) && After(l, MembersBytes(ms)) == Lexer(Done, false)
    decreases |ms|
  {
    hide MemberBytes, MemberFeeds, Take;
    var c := if |ms| == 1 then '}' else ',';
    MemberReports(l, ms[0], c);
    ReportsAppend(l, MemberBytes(ms[0], c), MembersBytes(ms[1..]));
    if |ms| == 1 {
      assert ms[1..] == [];
      assert MembersBytes([]) == [] && MembersFeeds([]) == [];
    } else {
      MembersReports(Lexer(WantKey(false), false), ms[1..]);
    }
  }

  // The lexer's reports on the text of a flat object are the ones the reader expects.
  lemma ObjectReports(ms: seq<Member>)
    requires ms != [] && AllLexical(ms)
    ensures Reports(Lexer(Start, false), ObjectBytes(ms)) == ObjectFeeds(ms)
  {
    var l := Lexer(Start, false);
    ReportsOne(l, '{');
    ReportsAppend(l, "{", MembersBytes(ms));
    MembersReports(Lexer(WantKey(true), false), ms);
  }

  // ------------------------------------------------------- from bytes to fields

  // The lexer runs on from one piece of the reply to the next.
  function ReportedChunks(l: Lexer, pieces: seq<string>): seq<seq<Feed>>
    decreases |pieces|
  {
    if pieces == [] then [] else [Reports(l, pieces[0])] + ReportedChunks(After(l, pieces[0]), pieces[1..])
  }

  function JoinedBytes(pieces: seq<string>): string {
    if pieces == [] then [] else pieces[0] + JoinedBytes(pieces[1..])
  }

  lemma {:induction false} PiecesReport(l: Lexer, pieces: seq<string>)
    ensures Joined(ReportedChunks(l, pieces)) == Reports(l, JoinedBytes(pieces))
    decreases |pieces|
  {
    if pieces != [] {
      PiecesReport(After(l, pieces[0]), pieces[1..]);
      ReportsAppend(l, pieces[0], JoinedBytes(pieces[1..]));
    }
  }

  // ------------------------------------------------- literals of JSON are complete

  predicate Digits(text: string) {
    forall k :: 0 <= k < |text| ==> IsDigit(text[k])
  }

  // A JSON number: an integer part, and optionally a fraction and an exponent (section 6
  // of RFC 8259; leading zeros are not excluded).
  datatype Number = Number(negative: bool, whole: string, fraction: string, exponent: string, mark: char, sign: string)

  predicate NumberParts(n: Number) {
    && n.whole != [] && Digits(n.whole) && Digits(n.fraction) && Digits(n.exponent)
    && IsMark(n.mark) && (n.sign == "" || n.sign == "+" || n.sign == "-")
  }

  function NumberText(n: Number): string {
    (if n.negative then "-" else "") + n.whole + Fraction(n) + Exponent(n)
  }

  function Fraction(n: Number): string {
    if n.fraction == [] then [] else ['.'] + n.fraction
  }

  function Exponent(n: Number): string {
    if n.exponent == [] then [] else [n.mark] + n.sign + n.exponent
  }

  // More digits at the end leave no point or mark waiting.
  lemma {:induction false} DigitsFinish(text: string, digits: string)
    requires Digits(digits) && digits != []
    ensures Finished(text + digits)
    decreases |digits|
  {
    var front, last := digits[..|digits| - 1], digits[|digits| - 1];
    assert text + digits == (text + front) + [last];
    WaitingSnoc(text + front, last);
  }

  lemma WholeFinished(whole: string)
    requires Digits(whole)
    ensures Finished(whole)
  {
    if whole != [] {
      DigitsFinish([], whole);
      assert [] + whole == whole;
    }
  }

  lemma NumberFinished(n: Number)
    requires NumberParts(n)
    ensures Finished(n.whole[1..] + Fraction(n) + Exponent(n))
  {
    var whole := n.whole[1..];
    if n.exponent != [] {
      DigitsFinish(whole + Fraction(n) + [n.mark] + n.sign, n.exponent);
      assert whole + Fraction(n) + [n.mark] + n.sign + n.exponent == whole + Fraction(n) + Exponent(n);
    } else if n.fraction != [] {
      DigitsFinish(whole + ['.'], n.fraction);
      assert whole + ['.'] + n.fraction == whole + Fraction(n) + Exponent(n);
    } else {
      WholeFinished(whole);
      assert whole == whole + Fraction(n) + Exponent(n);
    }
  }

  predicate NumberChar(c: char) {
    IsDigit(c) || c == '-' || c == '+' || c == '.' || IsMark(c)
  }

  lemma NumberChars(n: Number)
    requires NumberParts(n)
    ensures forall k :: 0 <= k < |NumberText(n)| ==> NumberChar(NumberText(n)[k])
  {
    var sign := if n.negative then "-" else "";
    AllNumberChars(sign, n.whole);
    AllNumberChars(sign + n.whole, Fraction(n));
    AllNumberChars(sign + n.whole + Fraction(n), Exponent(n));
  }

  lemma AllNumberChars(a: string, b: string)
    requires forall k :: 0 <= k < |a| ==> NumberChar(a[k])
    requires forall k :: 0 <= k < |b| ==> NumberChar(b[k])
    ensures forall k :: 0 <= k < |a + b| ==> NumberChar((a + b)[k])
  {
  }

  lemma NumberShape(n: Number)
    requires NumberParts(n)
    ensures var rest := n.whole[1..] + Fraction(n) + Exponent(n);
      NumberText(n) == (if n.negative then "-" else "") + [n.whole[0]] + rest
  {
    assert n.whole == [n.whole[0]] + n.whole[1..];
  }

  lemma NotEnding(text: string)
    requires forall k :: 0 <= k < |text| ==> NumberChar(text[k])
    ensures forall k :: 0 <= k < |text| ==> !EndsLiteral(text[k])
  {
  }

  lemma BehindSign(first: char, rest: string)
    requires IsDigit(first)
    ensures BehindDigit([first] + rest) == Some(rest)
    ensures BehindDigit("-" + [first] + rest) == Some(rest)
  {
    assert ([first] + rest)[1..] == rest;
    assert ("-" + [first] + rest)[1..] == [first] + rest;
  }

  // Every number of JSON, and the three words, can stand in an object that is read.
  lemma JsonLiteralsComplete(n: Number)
    requires NumberParts(n)
    ensures LiteralText(NumberText(n)) && LiteralText("true") && LiteralText("false") && LiteralText("null")
  {
    hide Finished, NumberText, Fraction, Exponent;
    NumberChars(n);
    NumberFinished(n);
    NotEnding(NumberText(n));
    NumberShape(n);
    var rest := n.whole[1..] + Fraction(n) + Exponent(n);
    BehindSign(n.whole[0], rest);
    assert "" + [n.whole[0]] + rest == [n.whole[0]] + rest;
  }

  // ------------------------------------------------- literals that never end

  lemma {:induction false} QuietSetsNothing(c: Capture, text: string)
    requires |c.buf| == JSN_BUF
    ensures FedAll(c, Quiet(text)).parse == c.parse
    decreases |text|
  {
    if text != [] {
      assert Quiet(text) == [Feed(text[0], [])] + Quiet(text[1..]);
      QuietSetsNothing(Stored(c, text[0]), text[1..]);
    }
  }

  function WordLength(first: char): nat {
    if first == 'f' then 5 else 4
  }

  // A word of the wrong length freezes the reader when the bytes up to the next
  // delimiters make it too long: whatever follows, no field is ever set again. In
  // {"expires_in":nul,"scope":"y"} the word is nul, the delimiters are a comma and a
  // quote, and sc makes it five letters long.
  lemma BadWordFreezes(c: Capture, m: Member, text: string, delimiters: string, more: string, rest: string)
    requires Idle(c) && Spaces(m.gap0) && Spaces(m.gap1) && Spaces(m.gap2) && Quotable(m.key, false) && NUL !in m.key
    requires LiteralBytes(text) && !IsDigit(text[0]) && text[0] != '-'
    requires |text| != WordLength(text[0]) && |text| + |more| > WordLength(text[0])
    requires forall k :: 0 <= k < |delimiters| ==> EndsLiteral(delimiters[k])
    requires forall k :: 0 <= k < |more| ==> !EndsLiteral(more[k])
    ensures var bytes := "{" + KeyBytes(m) + (text + (delimiters + more + rest));
      FedAll(c, Reports(Lexer(Start, false), bytes)).parse == Token(c.parse, Hkey, m.key)
  {
    hide Quotable, Spaces, Token;
    var l, begin, tail := Lexer(Start, false), "{" + KeyBytes(m), text + (delimiters + more + rest);
    KeyRead(c, m);
    ReportsAppend(l, begin, tail);
    ChunksDoNotMatter(c, Reports(l, begin), Reports(Lexer(WantValue, false), tail));
    BadWordReports(text, delimiters, more, rest);
    BadWordRead(FedAll(c, Reports(l, begin)), text, delimiters + more + rest);
  }

  lemma BadWordRead(c: Capture, text: string, rest: string)
    requires Idle(c) && text != []
    ensures FedAll(c, FirstOf(text) + Quiet(rest)).parse == c.parse
  {
    LiteralHeld(c, text);
    ChunksDoNotMatter(c, FirstOf(text), Quiet(rest));
    QuietSetsNothing(FedAll(c, FirstOf(text)), rest);
  }

  lemma {:induction false} DelimitersDropped(l: Flags, delimiters: string)
    requires !CanEnd(l) && forall k :: 0 <= k < |delimiters| ==> EndsLiteral(delimiters[k])
    ensures var lexer := Lexer(InLiteral(l), false);
      Reports(lexer, delimiters) == Quiet(delimiters) && After(lexer, delimiters) == lexer
    decreases |delimiters|
  {
    hide CanEnd;
    if delimiters != [] {
      assert Quiet(delimiters) == [Feed(delimiters[0], [])] + Quiet(delimiters[1..]);
      assert Take(Lexer(InLiteral(l), false), delimiters[0]) == Taken(Lexer(InLiteral(l), false), []);
      DelimitersDropped(l, delimiters[1..]);
    }
  }

  lemma BadWordReports(text: string, delimiters: string, more: string, rest: string)
    requires LiteralBytes(text) && !IsDigit(text[0]) && text[0] != '-'
    requires |text| != WordLength(text[0]) && |text| + |more| > WordLength(text[0])
    requires forall k :: 0 <= k < |delimiters| ==> EndsLiteral(delimiters[k])
    requires forall k :: 0 <= k < |more| ==> !EndsLiteral(more[k])
    ensures Reports(Lexer(WantValue, false), text + (delimiters + more + rest))
         == FirstOf(text) + Quiet(delimiters + more + rest)
  {
    var l := LiteralAfter(Begun(text[0]), text[1..]);
    var l' := LiteralAfter(l, more);
    WordAfter(Begun(text[0]), text[1..]);
    WordAfter(l, more);
    LiteralReports(text);
    DelimitersDropped(l, delimiters);
    LiteralIsQuiet(l, more);
    OverlongSwallows(l', rest);
    hide Take, FirstOf, Quiet, LiteralAfter;
    var lexer := Lexer(InLiteral(l), false);
    ReportsAppend(Lexer(WantValue, false), text, delimiters + more + rest);
    ReportsAppend(lexer, delimiters + more, rest);
    ReportsAppend(lexer, delimiters, more);
    QuietAppend(delimiters, more);
    QuietAppend(delimiters + more, rest);
  }

  lemma QuietAppend(a: string, b: string)
    ensures Quiet(a + b) == Quiet(a) + Quiet(b)
  {
  }

  function KeyBytes(m: Member): string {
    m.gap0 + (['"'] + m.key + ['"']) + (m.gap1 + ":" + m.gap2)
  }

  lemma KeyReports(m: Member)
    requires Spaces(m.gap0) && Spaces(m.gap1) && Spaces(m.gap2) && Quotable(m.key, false)
    ensures var l := Lexer(WantKey(true), false);
      && Reports(l, KeyBytes(m)) == Quiet(m.gap0) + Quoted(Hkey, m.key) + Quiet(m.gap1 + ":" + m.gap2)
      && After(l, KeyBytes(m)) == Lexer(WantValue, false)
  {
    hide Quiet, Quoted, Quotable, Take;
    var l, key, colon := Lexer(WantKey(true), false), ['"'] + m.key + ['"'], m.gap1 + ":" + m.gap2;
    SpacesAreQuiet(l, m.gap0);
    ReportsAppend(l, m.gap0, key);
    QuotedReports(l, Hkey, m.key);
    ReportsAppend(l, m.gap0 + key, colon);
    ColonReports(m);
  }

  // The beginning of an object up to its first value.
  lemma KeyRead(c: Capture, m: Member)
    requires Idle(c) && Spaces(m.gap0) && Spaces(m.gap1) && Spaces(m.gap2) && Quotable(m.key, false) && NUL !in m.key
    ensures var l, bytes := Lexer(Start, false), "{" + KeyBytes(m);
      && After(l, bytes) == Lexer(WantValue, false)
      && Idle(FedAll(c, Reports(l, bytes))) && FedAll(c, Reports(l, bytes)).parse == Token(c.parse, Hkey, m.key)
  {
    hide Token, Quotable, Spaces;
    var l, begin := Lexer(Start, false), Feed('{', [Push(Object, '{')]);
    var q0, key, q1 := Quiet(m.gap0), Quoted(Hkey, m.key), Quiet(m.gap1 + ":" + m.gap2);
    ReportsOne(l, '{');
    ReportsAppend(l, "{", KeyBytes(m));
    KeyReports(m);
    hide KeyBytes, Reports, Take;
    IdleSize(c);
    FeedOne(c, begin);
    ActedOne(c, Push(Object, '{'));
    assert Fed(c, begin) == c;
    hide Quiet, Quoted;
    ChunksDoNotMatter(c, [begin], q0 + key + q1);
    QuietWhenIdle(c, m.gap0);
    ChunksDoNotMatter(c, q0, key);
    QuotedDelivers(c, Hkey, m.key);
    QuietWhenIdle(FedAll(c, key), m.gap1 + ":" + m.gap2);
    ChunksDoNotMatter(c, q0 + key, q1);
  }

  // From bytes to fields: however the text of a flat object of plain members is cut
  // into pieces, after the last piece every field holds the last value of its key, cut
  // to 255 characters and then to the room of the field.
  lemma ReplyIsRead(c: Capture, ms: seq<Member>, pieces: seq<string>)
    requires Idle(c) && c.parse.state == Root
    requires ms != [] && AllLexical(ms) && forall k :: 0 <= k < |ms| ==> Plain(ms[k])
    requires JoinedBytes(pieces) == ObjectBytes(ms)
    ensures var after := FedChunks(c, ReportedChunks(Lexer(Start, false), pieces));
      && after.parse.state == Root
      && (forall field :: StringField(field) ==>
           Get(after.parse.fields, field) == Expected(c.parse.fields, ms, field))
      && after.parse.fields.expiresIn == ExpectedExpiry(c.parse.fields, ms)
  {
    hide Plain, Idle, Get, Expected, ExpectedExpiry, StringField;
    PiecesReport(Lexer(Start, false), pieces);
    ObjectReports(ms);
    IdleSize(c);
    StreamingIsReading(c, ms, ReportedChunks(Lexer(Start, false), pieces));
  }
}
