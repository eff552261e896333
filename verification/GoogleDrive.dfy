// Model of the streaming reader of the access-token reply: write_callback,
// google_drive_state_callback and get_access_token_state_start of
// HoikuCamApp/src/GoogleDrive.cpp. What the JSON lexer reports while it takes a byte is
// attached to the byte here; JsonLexer.dfy says what it reports.
module GoogleDrive {
  import opened Common
  import opened CString

  const JSN_BUF: nat := 256

  datatype Kind = Object | Hkey | Str | Special

  datatype Event =
    | Push(kind: Kind, c: char)       // c is the byte being fed
    | Pop(kind: Kind, level: nat)

  datatype Feed = Feed(data: char, events: seq<Event>)

  datatype ParseState =
    | Root | AccessToken | ExpiresIn | RefreshToken | Scope | TokenType | Error | ErrorDescription

  datatype Fields = Fields(
    accessToken: string, expiresIn: int, refreshToken: string, scope: string,
    tokenType: string, error: string, errorDescription: string)

  datatype Parse = Parse(state: ParseState, fields: Fields)

  // The parser's part of google_drive_t.
  datatype Capture = Capture(buf: seq<char>, pos: int, parse: Parse)

  // ------------------------------------------------------- names and sizes

  function StateFor(text: string): ParseState {
    if text == "access_token" then AccessToken
    else if text == "expires_in" then ExpiresIn
    else if text == "refresh_token" then RefreshToken
    else if text == "scope" then Scope
    else if text == "token_type" then TokenType
    else if text == "error" then Error
    else if text == "error_description" then ErrorDescription
    else Root
  }

  function Room(field: ParseState): nat {
    match field
    case AccessToken => 132
    case TokenType => 16
    case _ => 64
  }

  function Get(fields: Fields, field: ParseState): string {
    match field
    case AccessToken => fields.accessToken
    case RefreshToken => fields.refreshToken
    case Scope => fields.scope
    case TokenType => fields.tokenType
    case Error => fields.error
    case ErrorDescription => fields.errorDescription
    case _ => ""
  }

  function Strlcpy(text: string, size: nat): string
    requires size > 0
  {
    Cut(text, size - 1)
  }

  // atoi on the text of a JSON number or literal
  function Atoi(text: string): int {
    if text != [] && text[0] == '-' then 0 - Natural(text[1..], 0) as int else Natural(text, 0)
  }

  function Natural(text: string, sofar: nat): nat
    decreases |text|
  {
    if text != [] && '0' <= text[0] <= '9' then Natural(text[1..], 10 * sofar + (text[0] - '0') as nat)
    else sofar
  }

  // -------------------------------------------------------- the callbacks

  // get_access_token_state_start
  function Started(p: Parse, kind: Kind, level: nat, text: string): Parse {
    var f := p.fields;
    match p.state
    case Root => if level != 2 then p else p.(state := StateFor(text))
    case AccessToken => if kind.Str? then Parse(Root, f.(accessToken := Strlcpy(text, 132))) else p
    case ExpiresIn => if kind.Special? then Parse(Root, f.(expiresIn := Atoi(text))) else p
    case RefreshToken => if kind.Str? then Parse(Root, f.(refreshToken := Strlcpy(text, 64))) else p
    case Scope => if kind.Str? then Parse(Root, f.(scope := Strlcpy(text, 64))) else p
    case TokenType => if kind.Str? then Parse(Root, f.(tokenType := Strlcpy(text, 16))) else p
    case Error => if kind.Str? then Parse(Root, f.(error := Strlcpy(text, 64))) else p
    case ErrorDescription => if kind.Str? then Parse(Root, f.(errorDescription := Strlcpy(text, 64))) else p
  }

  // A token means something exactly when it is one of the seven keys, at level 2 and
  // outside any member, or a value of the kind that the key before it needs; such a value
  // ends its member.
  lemma TokenActsIff(p: Parse, kind: Kind, level: nat, text: string)
    ensures Started(p, kind, level, text) != p <==>
      if p.state == Root
      then level == 2 && text in {"access_token", "expires_in", "refresh_token", "scope", "token_type", "error",
                                  "error_description"}
      else if p.state == ExpiresIn then kind == Special else kind == Str
    ensures Started(p, kind, level, text) != p && p.state != Root ==> Started(p, kind, level, text).state == Root
  {
  }

  // A position is compared as an unsigned number: a negative one is out of the buffer.
  function Closed(c: Capture): Capture {
    if 0 <= c.pos - 1 < |c.buf| then c.(buf := c.buf[c.pos - 1 := NUL]) else c
  }

  // google_drive_state_callback
  function Acted(c: Capture, e: Event): Capture
    requires |c.buf| == JSN_BUF
  {
    match e
    case Push(Special, first) => c.(buf := c.buf[0 := first], pos := 1)
    case Push(Object, _) => c.(pos := -1)
    case Push(_, _) => c.(pos := 0)
    case Pop(Object, _) => c.(buf := c.buf[0 := NUL], pos := -1)
    case Pop(kind, level) =>
      var buf := Closed(c).buf;
      Capture(buf, -1, Started(c.parse, kind, level, Text(buf)))
  }

  function ActedAll(c: Capture, events: seq<Event>): (after: Capture)
    requires |c.buf| == JSN_BUF
    ensures |after.buf| == JSN_BUF
    decreases |events|
  {
    if events == [] then c else ActedAll(Acted(c, events[0]), events[1..])
  }

  function Stored(c: Capture, data: char): (after: Capture)
    ensures |after.buf| == |c.buf|
  {
    if 0 <= c.pos < |c.buf| then c.(buf := c.buf[c.pos := data], pos := c.pos + 1) else c
  }

  // One byte of write_callback.
  function Fed(c: Capture, feed: Feed): (after: Capture)
    requires |c.buf| == JSN_BUF
    ensures |after.buf| == JSN_BUF
  {
    ActedAll(Stored(c, feed.data), feed.events)
  }

  function FedAll(c: Capture, feeds: seq<Feed>): (after: Capture)
    requires |c.buf| == JSN_BUF
    ensures |after.buf| == JSN_BUF
    decreases |feeds|
  {
    if feeds == [] then c else FedAll(Fed(c, feeds[0]), feeds[1..])
  }

  // ------------------------------------------------------------ the class

  class GoogleDriveReader {
    const jsnBuf: array<char>
    var jsnBufPos: int
    var state: ParseState
    var fields: Fields

    ghost predicate Valid() reads this { jsnBuf.Length == JSN_BUF }

    ghost function Now(): Capture reads this, jsnBuf { Capture(jsnBuf[..], jsnBufPos, Parse(state, fields)) }

    // The start of a request.
    constructor (fields: Fields)
      ensures Valid() && fresh(jsnBuf) && jsnBufPos == -1 && state == Root && this.fields == fields
    {
      jsnBuf := new char[JSN_BUF](_ => NUL);
      jsnBufPos, state := -1, Root;
      this.fields := fields;
    }

    method StateStart(kind: Kind, level: nat, buf: string)
      requires Valid()
      modifies this
      ensures Valid() && Parse(state, fields) == Started(old(Parse(state, fields)), kind, level, buf)
      ensures jsnBufPos == old(jsnBufPos)
    {
      match state {
        case Root =>
          if level == 2 {
            state := StateFor(buf);
          }
        case AccessToken =>
          if kind.Str? {
            fields := fields.(accessToken := Strlcpy(buf, 132));
            state := Root;
          }
        case ExpiresIn =>
          if kind.Special? {
            fields := fields.(expiresIn := Atoi(buf));
            state := Root;
          }
        case RefreshToken =>
          if kind.Str? {
            fields := fields.(refreshToken := Strlcpy(buf, 64));
            state := Root;
          }
        case Scope =>
          if kind.Str? {
            fields := fields.(scope := Strlcpy(buf, 64));
            state := Root;
          }
        case TokenType =>
          if kind.Str? {
            fields := fields.(tokenType := Strlcpy(buf, 16));
            state := Root;
          }
        case Error =>
          if kind.Str? {
            fields := fields.(error := Strlcpy(buf, 64));
            state := Root;
          }
        case ErrorDescription =>
          if kind.Str? {
            fields := fields.(errorDescription := Strlcpy(buf, 64));
            state := Root;
          }
      }
    }

    method StateCallback(e: Event)
      requires Valid()
      modifies this, jsnBuf
      ensures Valid() && Now() == Acted(old(Now()), e)
    {
      hide Started, Text;
      match e {
        case Push(kind, c) =>
          match kind {
            case Special =>
              jsnBuf[0] := c;
              jsnBufPos := 1;
            case Str => jsnBufPos := 0;
            case Hkey => jsnBufPos := 0;
            case _ => jsnBufPos := -1;
          }
        case Pop(kind, level) =>
          if kind.Object? {
            jsnBuf[0] := NUL;
          } else {
            jsnBufPos := jsnBufPos - 1;
            if 0 <= jsnBufPos < JSN_BUF {
              jsnBuf[jsnBufPos] := NUL;
            }
            assert jsnBuf[..] == Closed(old(Now())).buf;
            StateStart(kind, level, Text(jsnBuf[..]));
          }
          jsnBufPos := -1;
      }
    }

    method WriteCallback(buffer: seq<Feed>) returns (len: nat)
      requires Valid()
      modifies this, jsnBuf
      ensures Valid() && Now() == FedAll(old(Now()), buffer) && len == |buffer|
    {
      hide Acted, Stored;
      len := |buffer|;
      var pos := 0;
      assert buffer[0..] == buffer;
      while pos < len
        invariant 0 <= pos <= len && Valid()
        invariant FedAll(old(Now()), buffer) == FedAll(Now(), buffer[pos..])
      {
        assert buffer[pos..][0] == buffer[pos] && buffer[pos..][1..] == buffer[pos + 1..];
        FeedByte(buffer[pos]);
        pos := pos + 1;
      }
    }

    method FeedByte(feed: Feed)
      requires Valid()
      modifies this, jsnBuf
      ensures Valid() && Now() == Fed(old(Now()), feed)
    {
      hide Acted;
      if 0 <= jsnBufPos < JSN_BUF {
        jsnBuf[jsnBufPos] := feed.data;
        jsnBufPos := jsnBufPos + 1;
      }
      assert Now() == Stored(old(Now()), feed.data);
      var k := 0;
      assert feed.events[0..] == feed.events;
      while k < |feed.events|
        invariant 0 <= k <= |feed.events| && Valid()
        invariant Fed(old(Now()), feed) == ActedAll(Now(), feed.events[k..])
      {
        assert feed.events[k..][0] == feed.events[k] && feed.events[k..][1..] == feed.events[k + 1..];
        StateCallback(feed.events[k]);
        k := k + 1;
      }
    }
  }

  // Feeding two pieces is feeding them as one.
  lemma {:induction false} ChunksDoNotMatter(c: Capture, a: seq<Feed>, b: seq<Feed>)
    requires |c.buf| == JSN_BUF
    ensures FedAll(c, a + b) == FedAll(FedAll(c, a), b)
    decreases |a|
  {
    if a == [] {
      assert a + b == b;
    } else {
      assert (a + b)[0] == a[0] && (a + b)[1..] == a[1..] + b;
      ChunksDoNotMatter(Fed(c, a[0]), a[1..], b);
    }
  }

  // One call of write_callback per chunk.
  function FedChunks(c: Capture, chunks: seq<seq<Feed>>): (after: Capture)
    requires |c.buf| == JSN_BUF
    ensures |after.buf| == JSN_BUF
    decreases |chunks|
  {
    if chunks == [] then c else FedChunks(FedAll(c, chunks[0]), chunks[1..])
  }

  function Joined(chunks: seq<seq<Feed>>): seq<Feed> {
    if chunks == [] then [] else chunks[0] + Joined(chunks[1..])
  }

  lemma {:induction false} ChunkingDoesNotMatter(c: Capture, chunks: seq<seq<Feed>>)
    requires |c.buf| == JSN_BUF
    ensures FedChunks(c, chunks) == FedAll(c, Joined(chunks))
    decreases |chunks|
  {
    hide Fed;
    if chunks != [] {
      ChunksDoNotMatter(c, chunks[0], Joined(chunks[1..]));
      ChunkingDoesNotMatter(FedAll(c, chunks[0]), chunks[1..]);
    }
  }

  // -------------------------------------------------------- flat objects

  datatype Value = Quote(text: string) | Literal(text: string)

  // A member of an object with the whitespace around its parts.
  datatype Member = Member(key: string, value: Value, gap0: string, gap1: string, gap2: string, gap3: string)

  predicate WellFormed(m: Member) {
    NUL !in m.key && NUL !in m.value.text && (m.value.Literal? ==> m.value.text != [])
  }

  function Quiet(text: string): (feeds: seq<Feed>)
    ensures |feeds| == |text|
  {
    seq(|text|, i requires 0 <= i < |text| => Feed(text[i], []))
  }

  // A quoted text: reported at the opening and at the closing quote.
  function Quoted(kind: Kind, text: string): seq<Feed> {
    [Feed('"', [Push(kind, '"')])] + Quiet(text) + [Feed('"', [Pop(kind, 2)])]
  }

  // A literal is reported at its first character and on the first byte after it.
  function FirstOf(text: string): seq<Feed>
    requires text != []
  {
    [Feed(text[0], [Push(Special, text[0])])] + Quiet(text[1..])
  }

  // The bytes after a value up to a comma or the closing brace.
  function Tail(m: Member, ending: Feed): (feeds: seq<Feed>)
    ensures feeds != []
  {
    if m.value.Quote? then Quiet(m.gap3) + [ending]
    else if m.gap3 == [] then [Feed(ending.data, [Pop(Special, 2)] + ending.events)]
    else [Feed(m.gap3[0], [Pop(Special, 2)])] + Quiet(m.gap3[1..]) + [ending]
  }

  function MemberFeeds(m: Member, ending: Feed): seq<Feed>
    requires WellFormed(m)
  {
    Quiet(m.gap0) + Quoted(Hkey, m.key) + Quiet(m.gap1 + ":" + m.gap2)
      + (if m.value.Quote? then Quoted(Str, m.value.text) else FirstOf(m.value.text))
      + Tail(m, ending)
  }

  const COMMA := Feed(',', [])
  const CLOSE := Feed('}', [Pop(Object, 1)])

  function MembersFeeds(ms: seq<Member>): seq<Feed>
    requires forall k :: 0 <= k < |ms| ==> WellFormed(ms[k])
  {
    if ms == [] then []
    else MemberFeeds(ms[0], if |ms| == 1 then CLOSE else COMMA) + MembersFeeds(ms[1..])
  }

  // The bytes of a flat object with at least one member.
  function ObjectFeeds(ms: seq<Member>): seq<Feed>
    requires forall k :: 0 <= k < |ms| ==> WellFormed(ms[k])
  {
    [Feed('{', [Push(Object, '{')])] + MembersFeeds(ms)
  }

  // ------------------------------------------------------ reading them

  ghost predicate Idle(c: Capture) { |c.buf| == JSN_BUF && c.pos == -1 }

  lemma {:induction false} QuietWhenIdle(c: Capture, text: string)
    requires Idle(c)
    ensures FedAll(c, Quiet(text)) == c
    decreases |text|
  {
    if text != [] {
      assert Quiet(text)[1..] == Quiet(text[1..]);
      QuietWhenIdle(c, text[1..]);
    }
  }

  // Where an object begins or ends, any capture ends: nothing is stored until the next
  // token begins, and no field changes.
  lemma StructureEndsCapture(c: Capture, e: Event, text: string)
    requires |c.buf| == JSN_BUF
    requires match e case Push(kind, _) => kind == Object case Pop(kind, _) => kind == Object
    ensures var after := Acted(c, e);
      after.pos == -1 && after.parse == c.parse && FedAll(after, Quiet(text)) == after
  {
    QuietWhenIdle(Acted(c, e), text);
  }

  // The buffer holds as much of the text as it can.
  ghost predicate Holds(c: Capture, text: string) {
    && |c.buf| == JSN_BUF
    && c.pos == (if |text| < JSN_BUF then |text| else JSN_BUF)
    && c.buf[..c.pos] == text[..c.pos]
  }

  lemma StoredHolds(c: Capture, text: string, data: char)
    requires Holds(c, text)
    ensures Holds(Stored(c, data), text + [data])
    ensures Stored(c, data).parse == c.parse
  {
  }

  lemma {:induction false} QuietHolds(c: Capture, text: string, more: string)
    requires Holds(c, text)
    ensures var after := FedAll(c, Quiet(more));
      Holds(after, text + more) && after.parse == c.parse
    decreases |more|
  {
    if more == [] {
      assert text + more == text;
    } else {
      StoredHolds(c, text, more[0]);
      assert Quiet(more)[1..] == Quiet(more[1..]);
      assert Fed(c, Quiet(more)[0]) == Stored(c, more[0]);
      QuietHolds(Stored(c, more[0]), text + [more[0]], more[1..]);
      assert text + [more[0]] + more[1..] == text + more;
    }
  }

  // What a whole token means to the parser: at most 255 of its characters.
  function Token(p: Parse, kind: Kind, text: string): Parse {
    Started(p, kind, 2, Cut(text, JSN_BUF - 1))
  }

  lemma ClosedText(c: Capture, text: string, delimiter: char)
    requires Holds(c, text + [delimiter]) && NUL !in text
    ensures Text(Closed(c).buf) == Cut(text, JSN_BUF - 1)
  {
    var kept := Cut(text, JSN_BUF - 1);
    assert c.pos - 1 == |kept|;
    forall i | 0 <= i < |kept|
      ensures c.buf[i] == kept[i]
    {
      assert c.buf[i] == c.buf[..c.pos][i];
    }
    assert Closed(c).buf[..|kept|] == kept;
    TextIs(Closed(c).buf, kept);
  }

  // The end of a token, with the delimiter already stored.
  lemma PopDelivers(c: Capture, kind: Kind, text: string, delimiter: char)
    requires Holds(c, text) && NUL !in text && !kind.Object?
    ensures var after := Acted(Stored(c, delimiter), Pop(kind, 2));
      Idle(after) && after.parse == Token(c.parse, kind, text)
  {
    StoredHolds(c, text, delimiter);
    ClosedText(Stored(c, delimiter), text, delimiter);
  }

  lemma FeedOne(c: Capture, feed: Feed)
    requires |c.buf| == JSN_BUF
    ensures FedAll(c, [feed]) == Fed(c, feed)
  {
  }

  lemma ActedOne(c: Capture, e: Event)
    requires |c.buf| == JSN_BUF
    ensures ActedAll(c, [e]) == Acted(c, e)
  {
  }

  // A key or a string value from quote to quote.
  lemma QuotedDelivers(c: Capture, kind: Kind, text: string)
    requires Idle(c) && NUL !in text && (kind == Hkey || kind == Str)
    ensures var after := FedAll(c, Quoted(kind, text));
      Idle(after) && after.parse == Token(c.parse, kind, text)
  {
    var begin, end := Feed('"', [Push(kind, '"')]), Feed('"', [Pop(kind, 2)]);
    var c1 := Fed(c, begin);
    ActedOne(c, Push(kind, '"'));
    assert Holds(c1, "") && c1.parse == c.parse;
    FeedOne(c, begin);
    ChunksDoNotMatter(c, [begin], Quiet(text));
    QuietHolds(c1, "", text);
    assert "" + text == text;
    var c2 := FedAll(c1, Quiet(text));
    ChunksDoNotMatter(c, [begin] + Quiet(text), [end]);
    FeedOne(c2, end);
    ActedOne(Stored(c2, '"'), Pop(kind, 2));
    PopDelivers(c2, kind, text, '"');
  }

  // A literal before its delimiter arrives.
  lemma LiteralHeld(c: Capture, text: string)
    requires Idle(c) && text != []
    ensures var after := FedAll(c, FirstOf(text));
      Holds(after, text) && after.parse == c.parse
  {
    var begin := Feed(text[0], [Push(Special, text[0])]);
    var c1 := Fed(c, begin);
    ActedOne(c, Push(Special, text[0]));
    assert Holds(c1, [text[0]]) && c1.parse == c.parse;
    FeedOne(c, begin);
    ChunksDoNotMatter(c, [begin], Quiet(text[1..]));
    QuietHolds(c1, [text[0]], text[1..]);
    assert [text[0]] + text[1..] == text;
  }

  ghost predicate IsEnding(feed: Feed) { feed == COMMA || feed == CLOSE }

  // A comma or a brace leaves an idle capture idle.
  lemma EndingWhenIdle(c: Capture, ending: Feed)
    requires Idle(c) && IsEnding(ending)
    ensures Idle(ActedAll(c, ending.events)) && ActedAll(c, ending.events).parse == c.parse
    ensures FedAll(c, [ending]) == ActedAll(c, ending.events)
  {
    FeedOne(c, ending);
    ActedOne(c, Pop(Object, 1));
  }

  // Whitespace, then the comma or the brace.
  lemma GapAndEnding(c: Capture, gap: string, ending: Feed)
    requires Idle(c) && IsEnding(ending)
    ensures var after := FedAll(c, Quiet(gap) + [ending]);
      Idle(after) && after.parse == c.parse
  {
    QuietWhenIdle(c, gap);
    ChunksDoNotMatter(c, Quiet(gap), [ending]);
    EndingWhenIdle(c, ending);
  }

  // The first byte after a literal ends it, whatever that byte is.
  lemma LiteralTail(c: Capture, m: Member, ending: Feed)
    requires m.value.Literal? && WellFormed(m) && Holds(c, m.value.text) && IsEnding(ending)
    ensures var after := FedAll(c, Tail(m, ending));
      Idle(after) && after.parse == Token(c.parse, Special, m.value.text)
  {
    var pop := Pop(Special, 2);
    if m.gap3 == [] {
      PopDelivers(c, Special, m.value.text, ending.data);
      var c1 := Acted(Stored(c, ending.data), pop);
      FeedOne(c, Feed(ending.data, [pop] + ending.events));
      assert ([pop] + ending.events)[1..] == ending.events;
      EndingWhenIdle(c1, ending);
    } else {
      var first := Feed(m.gap3[0], [pop]);
      PopDelivers(c, Special, m.value.text, m.gap3[0]);
      var c1 := Acted(Stored(c, m.gap3[0]), pop);
      ActedOne(Stored(c, m.gap3[0]), pop);
      FeedOne(c, first);
      GapAndEnding(c1, m.gap3[1..], ending);
      assert Tail(m, ending) == [first] + (Quiet(m.gap3[1..]) + [ending]);
      ChunksDoNotMatter(c, [first], Quiet(m.gap3[1..]) + [ending]);
    }
  }

  // ------------------------------------------------- members and objects

  function MemberParse(p: Parse, m: Member): Parse {
    Token(Token(p, Hkey, m.key), if m.value.Quote? then Str else Special, m.value.text)
  }

  function ParseMembers(p: Parse, ms: seq<Member>): Parse
    decreases |ms|
  {
    if ms == [] then p else ParseMembers(MemberParse(p, ms[0]), ms[1..])
  }

  lemma ValueReads(c: Capture, m: Member, ending: Feed)
    requires Idle(c) && WellFormed(m) && IsEnding(ending)
    ensures var value := if m.value.Quote? then Quoted(Str, m.value.text) else FirstOf(m.value.text);
      var after := FedAll(c, value + Tail(m, ending));
      Idle(after) && after.parse == Token(c.parse, if m.value.Quote? then Str else Special, m.value.text)
  {
    if m.value.Quote? {
      var value := Quoted(Str, m.value.text);
      QuotedDelivers(c, Str, m.value.text);
      ChunksDoNotMatter(c, value, Tail(m, ending));
      GapAndEnding(FedAll(c, value), m.gap3, ending);
    } else {
      var value := FirstOf(m.value.text);
      LiteralHeld(c, m.value.text);
      ChunksDoNotMatter(c, value, Tail(m, ending));
      LiteralTail(FedAll(c, value), m, ending);
    }
  }

  // The bytes of one member, read from between two members.
  lemma MemberReads(c: Capture, m: Member, ending: Feed)
    requires Idle(c) && WellFormed(m) && IsEnding(ending)
    ensures var after := FedAll(c, MemberFeeds(m, ending));
      Idle(after) && after.parse == MemberParse(c.parse, m)
  {
    hide Quiet, Token, FirstOf, Tail, Quoted, Idle;
    var q0, key, q1 := Quiet(m.gap0), Quoted(Hkey, m.key), Quiet(m.gap1 + ":" + m.gap2);
    var value := if m.value.Quote? then Quoted(Str, m.value.text) else FirstOf(m.value.text);
    var tail := Tail(m, ending);
    IdleSize(c);
    var c1 := FedAll(c, key);
    QuietWhenIdle(c, m.gap0);
    ChunksDoNotMatter(c, q0, key);
    QuotedDelivers(c, Hkey, m.key);
    IdleSize(c1);
    QuietWhenIdle(c1, m.gap1 + ":" + m.gap2);
    ChunksDoNotMatter(c, q0 + key, q1);
    ValueReads(c1, m, ending);
    assert q0 + key + q1 + value + tail == (q0 + key + q1) + (value + tail);
    ChunksDoNotMatter(c, q0 + key + q1, value + tail);
  }

  lemma IdleSize(c: Capture)
    requires Idle(c)
    ensures |c.buf| == JSN_BUF
  {
  }

  lemma {:induction false} MembersRead(c: Capture, ms: seq<Member>)
    requires Idle(c) && forall k :: 0 <= k < |ms| ==> WellFormed(ms[k])
    ensures Idle(FedAll(c, MembersFeeds(ms))) && FedAll(c, MembersFeeds(ms)).parse == ParseMembers(c.parse, ms)
    decreases |ms|
  {
    hide MemberFeeds, WellFormed, MemberParse;
    if ms != [] {
      var ending := if |ms| == 1 then CLOSE else COMMA;
      var first := MemberFeeds(ms[0], ending);
      MemberReads(c, ms[0], ending);
      ChunksDoNotMatter(c, first, MembersFeeds(ms[1..]));
      MembersRead(FedAll(c, first), ms[1..]);
    }
  }

  // The bytes of a flat object give the parser its members in order.
  lemma ObjectRead(c: Capture, ms: seq<Member>)
    requires Idle(c) && forall k :: 0 <= k < |ms| ==> WellFormed(ms[k])
    ensures Idle(FedAll(c, ObjectFeeds(ms))) && FedAll(c, ObjectFeeds(ms)).parse == ParseMembers(c.parse, ms)
  {
    hide MembersFeeds;
    var begin := Feed('{', [Push(Object, '{')]);
    FeedOne(c, begin);
    ActedOne(c, Push(Object, '{'));
    assert Fed(c, begin) == c;
    ChunksDoNotMatter(c, [begin], MembersFeeds(ms));
    MembersRead(c, ms);
  }

  // ------------------------------------------------- the plain reading

  function LastValue(ms: seq<Member>, key: string): Option<Value> {
    if ms == [] then None
    else
      var later := LastValue(ms[1..], key);
      if later.Some? then later else if ms[0].key == key then Some(ms[0].value) else None
  }

  function KeyOf(field: ParseState): string {
    match field
    case Root => ""
    case AccessToken => "access_token"
    case ExpiresIn => "expires_in"
    case RefreshToken => "refresh_token"
    case Scope => "scope"
    case TokenType => "token_type"
    case Error => "error"
    case ErrorDescription => "error_description"
  }

  // A known key has a value of its own kind; an unknown key's value does not look
  // like a known key.
  predicate Plain(m: Member) {
    match StateFor(m.key)
    case Root => StateFor(m.value.text) == Root
    case ExpiresIn => m.value.Literal?
    case _ => m.value.Quote?
  }

  // Cutting a text to 255 characters does not make it a known key.
  lemma CutIsNoKey(text: string)
    ensures StateFor(Cut(text, JSN_BUF - 1)) == StateFor(text)
  {
  }

  // Between members the parser is back at its root state exactly when the member was
  // plain.
  lemma BackAtRootIff(p: Parse, m: Member)
    requires p.state == Root
    ensures MemberParse(p, m).state == Root <==> Plain(m)
  {
    CutIsNoKey(m.key);
    CutIsNoKey(m.value.text);
  }

  // What a field should hold after the object: the last value of its key, as far as the
  // field has room for it.
  function Expected(before: Fields, ms: seq<Member>, field: ParseState): string {
    match LastValue(ms, KeyOf(field))
    case None => Get(before, field)
    case Some(v) => Cut(v.text, if field == AccessToken then 131 else if field == TokenType then 15 else 63)
  }

  lemma CutToRoom(text: string, field: ParseState)
    ensures Cut(Cut(text, JSN_BUF - 1), Room(field) - 1)
         == Cut(text, if field == AccessToken then 131 else if field == TokenType then 15 else 63)
  {
  }

  function ExpectedExpiry(before: Fields, ms: seq<Member>): int {
    match LastValue(ms, "expires_in")
    case None => before.expiresIn
    case Some(v) => Atoi(Cut(v.text, 255))
  }

  ghost predicate StringField(field: ParseState) { field != Root && field != ExpiresIn }

  lemma KeyStates(key: string, field: ParseState)
    requires field != Root
    ensures StateFor(key) == field <==> key == KeyOf(field)
  {
  }

  lemma MemberSets(p: Parse, m: Member, field: ParseState)
    requires p.state == Root && Plain(m) && StringField(field)
    ensures Get(MemberParse(p, m).fields, field)
         == if m.key == KeyOf(field) then Cut(Cut(m.value.text, JSN_BUF - 1), Room(field) - 1) else Get(p.fields, field)
  {
    CutIsNoKey(m.key);
    CutIsNoKey(m.value.text);
    KeyStates(m.key, field);
    hide StateFor, Cut, KeyOf;
  }

  lemma MemberSetsExpiry(p: Parse, m: Member)
    requires p.state == Root && Plain(m)
    ensures MemberParse(p, m).fields.expiresIn
         == if m.key == "expires_in" then Atoi(Cut(m.value.text, JSN_BUF - 1)) else p.fields.expiresIn
  {
    CutIsNoKey(m.key);
    CutIsNoKey(m.value.text);
    KeyStates(m.key, ExpiresIn);
    hide StateFor, Cut;
  }

  lemma {:induction false} ParseIsReading(p: Parse, ms: seq<Member>)
    requires p.state == Root && forall k :: 0 <= k < |ms| ==> Plain(ms[k])
    ensures ParseMembers(p, ms).state == Root
    ensures forall field :: StringField(field) ==>
      Get(ParseMembers(p, ms).fields, field) == Expected(p.fields, ms, field)
    ensures ParseMembers(p, ms).fields.expiresIn == ExpectedExpiry(p.fields, ms)
    decreases |ms|
  {
    hide MemberParse, Plain, Get, KeyOf, Room, Cut;
    if ms != [] {
      var next := MemberParse(p, ms[0]);
      BackAtRootIff(p, ms[0]);
      ParseIsReading(next, ms[1..]);
      forall field | StringField(field)
        ensures Get(ParseMembers(p, ms).fields, field) == Expected(p.fields, ms, field)
      {
        MemberSets(p, ms[0], field);
        CutToRoom(ms[0].value.text, field);
      }
      MemberSetsExpiry(p, ms[0]);
    }
  }

  // The streaming reader agrees with the plain reading: however a flat object of plain
  // members is cut into chunks, every field ends as the last value of its key, cut to
  // 255 characters and then to the room of the field.
  lemma StreamingIsReading(c: Capture, ms: seq<Member>, chunks: seq<seq<Feed>>)
    requires Idle(c) && c.parse.state == Root
    requires forall k :: 0 <= k < |ms| ==> WellFormed(ms[k]) && Plain(ms[k])
    requires Joined(chunks) == ObjectFeeds(ms)
    ensures var after := FedChunks(c, chunks);
      && after.parse.state == Root && after.pos == -1
      && (forall field :: StringField(field) ==>
           Get(after.parse.fields, field) == Expected(c.parse.fields, ms, field))
      && after.parse.fields.expiresIn == ExpectedExpiry(c.parse.fields, ms)
  {
    ChunkingDoesNotMatter(c, chunks);
    ObjectRead(c, ms);
    ParseIsReading(c.parse, ms);
  }

  // Why members must be plain: a null for a known key makes the next string its value,
  const SWALLOWING := [Member("scope", Literal("null"), "", "", "", ""), Member("x", Quote("y"), "", "", "", "")]

  // and an unknown key's value that names a known key makes the next string its value.
  const MISTAKEN := [Member("x", Quote("scope"), "", "", "", ""), Member("z", Quote("y"), "", "", "", "")]

  lemma NotPlainNotRead(c: Capture, ms: seq<Member>)
    requires Idle(c) && c.parse.state == Root && (ms == SWALLOWING || ms == MISTAKEN)
    ensures FedAll(c, ObjectFeeds(ms)).parse.fields.scope == "y"
    ensures forall v :: LastValue(ms, "scope") == Some(v) ==> v == Literal("null")
  {
    ObjectRead(c, ms);
    NotPlainParsed(c.parse, ms);
  }

  lemma NotPlainParsed(p: Parse, ms: seq<Member>)
    requires p.state == Root && (ms == SWALLOWING || ms == MISTAKEN)
    ensures ParseMembers(p, ms).fields.scope == "y"
    ensures forall v :: LastValue(ms, "scope") == Some(v) ==> v == Literal("null")
  {
    var p1 := MemberParse(p, ms[0]);
    assert p1 == Parse(Scope, p.fields);
    hide StateFor;
    assert MemberParse(p1, ms[1]).fields.scope == "y";
    assert ms[1..] == [ms[1]];
    hide MemberParse;
    TwoMembers(p, ms);
  }

  lemma TwoMembers(p: Parse, ms: seq<Member>)
    requires |ms| == 2
    ensures ParseMembers(p, ms) == MemberParse(MemberParse(p, ms[0]), ms[1])
    ensures forall key, v :: LastValue(ms, key) == Some(v) ==>
      (v == ms[0].value && ms[0].key == key) || (v == ms[1].value && ms[1].key == key)
  {
    hide MemberParse;
    var rest := ms[1..];
    assert rest[0] == ms[1] && rest[1..] == [];
    assert ParseMembers(MemberParse(p, ms[0]), rest) == ParseMembers(MemberParse(MemberParse(p, ms[0]), ms[1]), []);
    assert forall key :: LastValue(rest, key) == if ms[1].key == key then Some(ms[1].value) else None by {
      assert forall key :: LastValue([], key) == None;
    }
  }

  // ---------------------------------------- exactly when the reading is right

  // After these members every field is what the plain reading says.
  ghost predicate ReadsRight(p: Parse, ms: seq<Member>) {
    var after := ParseMembers(p, ms).fields;
    && (forall field :: StringField(field) ==> Get(after, field) == Expected(p.fields, ms, field))
    && after.expiresIn == ExpectedExpiry(p.fields, ms)
  }

  // A member that any state of the parser can meet next.
  ghost predicate Follower(n: Member) {
    WellFormed(n) && Plain(n)
  }

  function Unknown(value: Value): Member {
    Member("x", value, "", "", "", "")
  }

  // A text of one character that is not the given one, and a digit that reads as
  // another number than the given one.
  function OtherText(text: string): string {
    if text == "a" then "b" else "a"
  }

  function OtherNumber(n: int): string {
    if n == 1 then "2" else "1"
  }

  lemma OtherNumberReads(n: int)
    ensures Atoi(OtherNumber(n)) != n && StateFor(OtherNumber(n)) == Root
  {
    var text := OtherNumber(n);
    assert Natural(text[1..], text[0] as nat - '0' as nat) == text[0] as nat - '0' as nat;
  }

  // The member after a stuck one is taken for the missing value.
  lemma StuckTakesNext(p: Parse, text: string)
    requires StringField(p.state) && |text| == 1
    ensures var after := MemberParse(p, Unknown(Quote(text)));
      Get(after.fields, p.state) == text && after.state == Root
  {
  }

  lemma StuckTakesNextNumber(p: Parse, text: string)
    requires p.state == ExpiresIn && |text| == 1
    ensures var after := MemberParse(p, Unknown(Literal(text)));
      after.fields.expiresIn == Atoi(text) && after.state == Root
  {
  }

  // For every member that is not plain there is a plain next member that is read as
  // the value of the key the parser is stuck at.
  lemma NotPlainMisread(p: Parse, m: Member) returns (n: Member)
    requires p.state == Root && !Plain(m)
    ensures Follower(n)
    ensures var stuck := MemberParse(p, m).state;
      var after := ParseMembers(p, [m, n]).fields;
      if stuck == ExpiresIn then after.expiresIn == Atoi(n.value.text) && after.expiresIn != ExpectedExpiry(p.fields, [m, n])
      else StringField(stuck) && Get(after, stuck) == n.value.text && Get(after, stuck) != Expected(p.fields, [m, n], stuck)
  {
    BackAtRootIff(p, m);
    var stuck := MemberParse(p, m);
    if stuck.state == ExpiresIn {
      n := Unknown(Literal(OtherNumber(ExpectedExpiry(p.fields, [m]))));
      OtherNumberReads(ExpectedExpiry(p.fields, [m]));
      StuckTakesNextNumber(stuck, n.value.text);
    } else {
      n := Unknown(Quote(OtherText(Expected(p.fields, [m], stuck.state))));
      StuckTakesNext(stuck, n.value.text);
      ShortIsUnknown(n.value.text);
    }
    hide MemberParse, Plain, StateFor;
    TwoMembers(p, [m, n]);
    UnknownAddsNothing(m, n);
    assert LastValue([m, n], KeyOf(stuck.state)) == LastValue([m], KeyOf(stuck.state));
    if stuck.state != ExpiresIn {
      assert StringField(stuck.state) && n.value.text != Expected(p.fields, [m], stuck.state);
      assert Expected(p.fields, [m, n], stuck.state) == Expected(p.fields, [m], stuck.state);
    }
  }

  lemma ShortIsUnknown(text: string)
    requires |text| == 1
    ensures StateFor(text) == Root
  {
  }

  lemma UnknownAddsNothing(m: Member, n: Member)
    requires n.key == "x"
    ensures forall field :: field != Root ==> LastValue([m, n], KeyOf(field)) == LastValue([m], KeyOf(field))
  {
    assert [m, n][1..] == [n] && [m][1..] == [] && [n][1..] == [];
    forall field | field != Root
      ensures KeyOf(field) != "x"
    {
    }
  }

  lemma {:induction false} ParseAppend(p: Parse, a: seq<Member>, b: seq<Member>)
    ensures ParseMembers(p, a + b) == ParseMembers(ParseMembers(p, a), b)
    decreases |a|
  {
    hide MemberParse;
    if a == [] {
      assert a + b == b;
    } else {
      assert (a + b)[1..] == a[1..] + b;
      ParseAppend(MemberParse(p, a[0]), a[1..], b);
    }
  }

  lemma {:induction false} LastValueAppend(a: seq<Member>, b: seq<Member>, key: string)
    ensures LastValue(a + b, key) == if LastValue(b, key).Some? then LastValue(b, key) else LastValue(a, key)
    decreases |a|
  {
    if a == [] {
      assert a + b == b;
    } else {
      assert (a + b)[1..] == a[1..] + b;
      LastValueAppend(a[1..], b, key);
    }
  }

  // Reading on from a right beginning is right exactly when the rest is read right.
  lemma ReadsRightOn(p: Parse, a: seq<Member>, b: seq<Member>)
    requires p.state == Root && ReadsRight(p, a)
    ensures ReadsRight(p, a + b) <==> ReadsRight(ParseMembers(p, a), b)
  {
    hide ParseMembers, KeyOf, Get, Room;
    ParseAppend(p, a, b);
    forall field
      ensures LastValue(a + b, KeyOf(field))
           == if LastValue(b, KeyOf(field)).Some? then LastValue(b, KeyOf(field)) else LastValue(a, KeyOf(field))
    {
      LastValueAppend(a, b, KeyOf(field));
    }
    LastValueAppend(a, b, "expires_in");
  }

  lemma PlainReadsRight(p: Parse, ms: seq<Member>)
    requires p.state == Root && forall k :: 0 <= k < |ms| ==> Plain(ms[k])
    ensures ReadsRight(p, ms) && ParseMembers(p, ms).state == Root
  {
    ParseIsReading(p, ms);
  }

  // The members are all plain if and only if every beginning of them, followed by any
  // plain member, is read right.
  lemma PlainIffReadRight(p: Parse, ms: seq<Member>)
    requires p.state == Root
    ensures (forall k :: 0 <= k < |ms| ==> Plain(ms[k]))
       <==> (forall k, n :: 0 <= k <= |ms| && Follower(n) ==> ReadsRight(p, ms[..k] + [n]))
  {
    hide Plain, ReadsRight;
    if forall k :: 0 <= k < |ms| ==> Plain(ms[k]) {
      forall k, n | 0 <= k <= |ms| && Follower(n)
        ensures ReadsRight(p, ms[..k] + [n])
      {
        PlainReadsRight(p, ms[..k] + [n]);
      }
    } else {
      FirstNotPlain(p, ms);
    }
  }

  lemma FirstNotPlain(p: Parse, ms: seq<Member>)
    requires p.state == Root && exists k :: 0 <= k < |ms| && !Plain(ms[k])
    ensures exists k, n :: 0 <= k <= |ms| && Follower(n) && !ReadsRight(p, ms[..k] + [n])
  {
    hide Plain, ReadsRight, ParseMembers, MemberParse, Get, Expected, ExpectedExpiry, StringField, Follower;
    var k := 0;
    while Plain(ms[k])
      invariant 0 <= k < |ms| && forall j :: 0 <= j < k ==> Plain(ms[j])
      invariant exists j :: k <= j < |ms| && !Plain(ms[j])
      decreases |ms| - k
    {
      k := k + 1;
    }
    PlainReadsRight(p, ms[..k]);
    var q := ParseMembers(p, ms[..k]);
    var n := NotPlainMisread(q, ms[k]);
    NotReadRight(q, ms[k], n);
    ReadsRightOn(p, ms[..k], [ms[k], n]);
    assert ms[..k] + [ms[k], n] == ms[..k + 1] + [n];
  }

  lemma NotReadRight(p: Parse, m: Member, n: Member)
    requires var stuck := MemberParse(p, m).state;
      var after := ParseMembers(p, [m, n]).fields;
      if stuck == ExpiresIn then after.expiresIn != ExpectedExpiry(p.fields, [m, n])
      else StringField(stuck) && Get(after, stuck) != Expected(p.fields, [m, n], stuck)
    ensures !ReadsRight(p, [m, n])
  {
  }

  // ------------------------------------------------------------ numbers

  function Decimal(n: nat): (text: string)
    ensures text != [] && text[0] != '-'
    ensures NUL !in text
  {
    var digit := ['0' + (n % 10) as char];
    if n < 10 then digit else Decimal(n / 10) + digit
  }

  lemma {:induction false} NaturalSnoc(text: string, d: char, sofar: nat)
    requires '0' <= d <= '9' && forall k :: 0 <= k < |text| ==> '0' <= text[k] <= '9'
    ensures Natural(text + [d], sofar) == 10 * Natural(text, sofar) + (d - '0') as nat
    decreases |text|
  {
    if text != [] {
      assert (text + [d])[1..] == text[1..] + [d];
      NaturalSnoc(text[1..], d, 10 * sofar + (text[0] - '0') as nat);
    }
  }

  lemma {:induction false} DecimalReads(n: nat)
    ensures forall k :: 0 <= k < |Decimal(n)| ==> '0' <= Decimal(n)[k] <= '9'
    ensures Natural(Decimal(n), 0) == n
  {
    if n >= 10 {
      DecimalReads(n / 10);
      NaturalSnoc(Decimal(n / 10), '0' + (n % 10) as char, 0);
    }
  }

  // What follows the digits does not matter.
  lemma {:induction false} NaturalStops(text: string, rest: string, sofar: nat)
    requires forall k :: 0 <= k < |text| ==> '0' <= text[k] <= '9'
    requires rest == [] || !('0' <= rest[0] <= '9')
    ensures Natural(text + rest, sofar) == Natural(text, sofar)
    decreases |text|
  {
    if text == [] {
      assert text + rest == rest;
    } else {
      assert (text + rest)[1..] == text[1..] + rest;
      NaturalStops(text[1..], rest, 10 * sofar + (text[0] - '0') as nat);
    }
  }

  function Minus(negative: bool): string {
    if negative then "-" else ""
  }

  lemma AtoiReads(negative: bool, n: nat, rest: string)
    requires rest == [] || !('0' <= rest[0] <= '9')
    ensures Atoi(Minus(negative) + Decimal(n) + rest) == if negative then 0 - n as int else n
  {
    hide Decimal, Natural;
    DecimalReads(n);
    NaturalStops(Decimal(n), rest, 0);
    var text := Minus(negative) + Decimal(n) + rest;
    if negative {
      assert text[1..] == Decimal(n) + rest;
    } else {
      assert text == Decimal(n) + rest && text[0] == Decimal(n)[0];
    }
  }

  // A lifetime that starts with a decimal number, with or without a minus, is read as
  // that number, whatever follows its digits.
  lemma ExpiryIsNumber(before: Fields, ms: seq<Member>, negative: bool, n: nat, rest: string)
    requires rest == [] || !('0' <= rest[0] <= '9')
    requires var text := Minus(negative) + Decimal(n) + rest;
      LastValue(ms, "expires_in") == Some(Literal(text)) && |text| < 256
    ensures ExpectedExpiry(before, ms) == if negative then 0 - n as int else n
  {
    AtoiReads(negative, n, rest);
  }
}
