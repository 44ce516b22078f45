/** Content-Length framing over byte streams, and the loop that serves them. */
module Framing {
  import opened Prelude

  type Bytes = seq<Byte>

  const LF: Byte := 10
  const CR: Byte := 13
  const COLON: Byte := 58

  // ---------- Lines ----------

  /** The bytes of readline: up to and including the first line feed, or everything. */
  function Line(s: Bytes): Bytes {
    if s == [] then []
    else if s[0] == LF then [LF]
    else [s[0]] + Line(s[1..])
  }

  lemma {:induction false} LinePrefix(s: Bytes)
    ensures |Line(s)| <= |s| && Line(s) == s[..|Line(s)|]
    ensures s != [] ==> Line(s) != []
  {
    if s != [] && s[0] != LF {
      LinePrefix(s[1..]);
    }
  }

  /** A line feed ends the line, whatever follows. */
  lemma {:induction false} LineOf(text: Bytes, rest: Bytes)
    requires forall i :: 0 <= i < |text| ==> text[i] != LF
    ensures Line(text + [LF] + rest) == text + [LF]
  {
    var s := text + [LF] + rest;
    if text == [] {
      assert s[0] == LF;
    } else {
      assert s[1..] == text[1..] + [LF] + rest;
      LineOf(text[1..], rest);
    }
  }

  // ---------- Headers ----------

  /** The white space that strip removes from ASCII text. */
  predicate SpaceByte(b: Byte) {
    0x09 <= b <= 0x0D || 0x1C <= b <= 0x20
  }

  function TrimStart(s: Bytes): Bytes {
    if s != [] && SpaceByte(s[0]) then TrimStart(s[1..]) else s
  }

  function TrimEnd(s: Bytes): Bytes {
    if s != [] && SpaceByte(s[|s| - 1]) then TrimEnd(s[..|s| - 1]) else s
  }

  function Trim(s: Bytes): Bytes {
    TrimEnd(TrimStart(s))
  }

  function LowerByte(b: Byte): Byte {
    if 65 <= b <= 90 then b + 32 else b
  }

  function Lower(s: Bytes): Bytes {
    seq(|s|, i requires 0 <= i < |s| => LowerByte(s[i]))
  }

  /** The position of the first colon, or the length. */
  function ColonAt(s: Bytes): nat {
    if s == [] || s[0] == COLON then 0 else 1 + ColonAt(s[1..])
  }

  lemma {:induction false} ColonInside(s: Bytes)
    ensures ColonAt(s) <= |s|
    ensures ColonAt(s) < |s| ==> s[ColonAt(s)] == COLON
    ensures forall i :: 0 <= i < ColonAt(s) ==> s[i] != COLON
  {
    if s != [] && s[0] != COLON {
      ColonInside(s[1..]);
    }
  }

  type Headers = map<Bytes, Bytes>

  /** One header line's effect; a line without a colon is ignored. */
  function AddHeader(headers: Headers, line: Bytes): Headers {
    var text := Trim(line);
    var k := ColonAt(text);
    if k >= |text| then headers
    else headers[Lower(Trim(text[..k])) := Trim(text[k + 1..])]
  }

  // ---------- Numbers ----------

  predicate DigitByte(b: Byte) {
    48 <= b <= 57
  }

  function DecimalText(n: nat): Bytes {
    if n < 10 then [48 + n] else DecimalText(n / 10) + [48 + n % 10]
  }

  /** The value of a digit string, if it is one; single underscores may stand between digits. */
  function DigitsValue(s: Bytes): Option<nat> {
    if s == [] || !DigitByte(s[|s| - 1]) then None
    else
      var d := s[|s| - 1] - 48;
      var init := s[..|s| - 1];
      if init == [] then Some(d)
      else
        var more := if |init| > 1 && init[|init| - 1] == 95 then init[..|init| - 1] else init;
        match DigitsValue(more)
        case None => None
        case Some(v) => Some(10 * v + d)
  }

  /** Python's int of ASCII text: an optional sign and digits, white space around. */
  function ParseInt(s: Bytes): Option<int> {
    var t := Trim(s);
    if t == [] then None
    else if t[0] == 43 then Widen(DigitsValue(t[1..]))
    else if t[0] == 45 then Negate(DigitsValue(t[1..]))
    else Widen(DigitsValue(t))
  }

  function Widen(v: Option<nat>): Option<int> {
    match v case None => None case Some(n) => Some(n)
  }

  function Negate(v: Option<nat>): Option<int> {
    match v case None => None case Some(n) => Some(-(n as int))
  }

  // ---------- Foreign code ----------

  datatype Parsed<M> = BadJson | BadUtf8 | NotObject | Message(message: M)

  /** UTF-8 validity of a header line, the JSON library, and the protocol behind it. */
  datatype Protocol<!M> = Protocol(
    utf8: Bytes -> bool,
    dump: M -> Bytes,
    parse: Bytes -> Parsed<M>,
    handle: M -> Option<M>,
    parseError: M,
    invalidRequest: M)

  predicate AsciiBytes(s: Bytes) {
    forall i :: 0 <= i < |s| ==> s[i] < 128
  }

  ghost predicate Faithful<M(!new)>(p: Protocol<M>) {
    && (forall s :: AsciiBytes(s) ==> p.utf8(s))
    && (forall m :: p.parse(p.dump(m)) == Message(m))
  }

  // ---------- Reading one message ----------

  datatype ReadResult<M> = EndOfStream | ParseError | InvalidRequest | Read(message: M)

  /** What is read from a stream, and what is left of it. */
  datatype ReadOutcome<M> = ReadOutcome(result: ReadResult<M>, rest: Bytes)

  const CONTENT_LENGTH: Bytes := [99, 111, 110, 116, 101, 110, 116, 45, 108, 101, 110, 103, 116, 104]

  function Least(a: int, b: int): int {
    if a < b then a else b
  }

  /** The body after the headers. A negative length makes read take everything, and then never fits. */
  function ReadBody<M>(p: Protocol<M>, headers: Headers, s: Bytes): ReadOutcome<M> {
    if CONTENT_LENGTH !in headers then ReadOutcome(InvalidRequest, s)
    else
      match ParseInt(headers[CONTENT_LENGTH])
      case None => ReadOutcome(InvalidRequest, s)
      case Some(n) =>
        var k := if n < 0 then |s| else Least(n, |s|);
        if k != n then ReadOutcome(InvalidRequest, s[k..])
        else
          match p.parse(s[..k])
          case BadJson => ReadOutcome(ParseError, s[k..])
          case BadUtf8 => ReadOutcome(InvalidRequest, s[k..])
          case NotObject => ReadOutcome(InvalidRequest, s[k..])
          case Message(m) => ReadOutcome(Read(m), s[k..])
  }

  function ReadFrom<M>(p: Protocol<M>, headers: Headers, s: Bytes): ReadOutcome<M>
    decreases |s|
  {
    if s == [] then ReadOutcome(if headers == map[] then EndOfStream else InvalidRequest, [])
    else
      var line := Line(s);
      LinePrefix(s);
      var rest := s[|line|..];
      if line == [CR, LF] || line == [LF] then ReadBody(p, headers, rest)
      else if !p.utf8(line) then ReadOutcome(InvalidRequest, rest)
      else ReadFrom(p, AddHeader(headers, line), rest)
  }

  // ---------- Streams ----------

  class InputStream {
    const data: Bytes
    var position: nat

    ghost predicate Valid()
      reads this
    {
      position <= |data|
    }

    function Remaining(): Bytes
      requires Valid()
      reads this
    {
      data[position..]
    }

    constructor (data: Bytes)
      ensures Valid() && this.data == data && Remaining() == data
    {
      this.data, position := data, 0;
    }

    method ReadLine() returns (line: Bytes)
      requires Valid()
      modifies this
      ensures Valid()
      ensures line == Line(old(Remaining()))
      ensures old(Remaining()) == line + Remaining()
    {
      ghost var before := data[position..];
      var end := position;
      while end < |data| && data[end] != LF
        invariant position <= end <= |data|
        invariant forall i :: position <= i < end ==> data[i] != LF
      {
        end := end + 1;
      }
      LineUpTo(before, end - position);
      if end < |data| {
        end := end + 1;
      }
      line := data[position..end];
      assert line == before[..end - position] && line == Line(before);
      assert before == line + data[end..];
      position := end;
    }

    /** read(n): up to n bytes, or everything when n is negative. */
    method ReadBytes(n: int) returns (bytes: Bytes)
      requires Valid()
      modifies this
      ensures Valid()
      ensures var k := if n < 0 then |old(Remaining())| else Least(n, |old(Remaining())|);
              bytes == old(Remaining())[..k] && Remaining() == old(Remaining())[k..]
    {
      var left := |data| - position;
      var k := if n < 0 then left else Least(n, left);
      bytes := data[position..position + k];
      position := position + k;
    }
  }

  /** The line ends with the first line feed, at k, or with the stream. */
  lemma {:induction false} LineUpTo(s: Bytes, k: nat)
    requires k <= |s| && (forall i :: 0 <= i < k ==> s[i] != LF) && (k < |s| ==> s[k] == LF)
    ensures Line(s) == if k < |s| then s[..k + 1] else s
  {
    if k > 0 {
      LineUpTo(s[1..], k - 1);
      assert s == [s[0]] + s[1..];
    }
  }

  method ReadFramedMessage<M>(p: Protocol<M>, input: InputStream) returns (r: ReadResult<M>)
    requires input.Valid()
    modifies input
    ensures input.Valid()
    ensures ReadOutcome(r, input.Remaining()) == ReadFrom(p, map[], old(input.Remaining()))
  {
    var headers: Headers := map[];
    while true
      invariant input.Valid()
      invariant ReadFrom(p, headers, input.Remaining()) == ReadFrom(p, map[], old(input.Remaining()))
      decreases |input.Remaining()|
    {
      ghost var before := input.Remaining();
      LinePrefix(before);
      var line := input.ReadLine();
      assert before[|line|..] == input.Remaining();
      if line == [] {
        return if headers == map[] then EndOfStream else InvalidRequest;
      }
      if line == [CR, LF] || line == [LF] {
        break;
      }
      if !p.utf8(line) {
        return InvalidRequest;
      }
      headers := AddHeader(headers, line);
    }
    if CONTENT_LENGTH !in headers {
      return InvalidRequest;
    }
    var expected := ParseInt(headers[CONTENT_LENGTH]);
    if expected.None? {
      return InvalidRequest;
    }
    var payload := input.ReadBytes(expected.value);
    if |payload| != expected.value {
      return InvalidRequest;
    }
    match p.parse(payload)
    case BadJson => return ParseError;
    case BadUtf8 => return InvalidRequest;
    case NotObject => return InvalidRequest;
    case Message(m) => return Read(m);
  }

  // ---------- Progress ----------

  /** Every attempt to read leaves less of the stream, unless it found the stream empty; so every result but
      the end of the stream has cost at least one byte. */
  lemma {:induction false} ReadingConsumes<M>(p: Protocol<M>, headers: Headers, s: Bytes)
    ensures var o := ReadFrom(p, headers, s);
            && |o.rest| <= |s|
            && (s != [] ==> |o.rest| < |s|)
            && (o.result == EndOfStream ==> o.rest == [])
    ensures s == [] && headers == map[] ==> ReadFrom(p, headers, s) == ReadOutcome(EndOfStream, [])
    decreases |s|
  {
    if s != [] {
      var line := Line(s);
      LinePrefix(s);
      var rest := s[|line|..];
      if line != [CR, LF] && line != [LF] && p.utf8(line) {
        ReadingConsumes(p, AddHeader(headers, line), rest);
      }
    }
  }

  // ---------- Writing ----------

  const LENGTH_LABEL: Bytes := [67, 111, 110, 116, 101, 110, 116, 45, 76, 101, 110, 103, 116, 104, 58, 32]

  /** "Content-Length: " and the body's length, an empty line, and the body. */
  function Frame<M>(p: Protocol<M>, m: M): Bytes {
    var body := p.dump(m);
    LENGTH_LABEL + DecimalText(|body|) + [CR] + [LF] + ([CR, LF] + body)
  }

  function FrameAll<M>(p: Protocol<M>, ms: seq<M>): Bytes {
    if ms == [] then [] else Frame(p, ms[0]) + FrameAll(p, ms[1..])
  }

  method WriteFramedMessage<M>(p: Protocol<M>, output: Bytes, message: M) returns (written: Bytes)
    ensures written == output + Frame(p, message)
  {
    var body := p.dump(message);
    written := output + (LENGTH_LABEL + DecimalText(|body|) + [CR] + [LF]);
    written := written + ([CR, LF] + body);
  }

  // ---------- Round trip ----------

  lemma {:induction false} DecimalDigits(n: nat)
    ensures DecimalText(n) != []
    ensures forall i :: 0 <= i < |DecimalText(n)| ==> DigitByte(DecimalText(n)[i])
    ensures DigitsValue(DecimalText(n)) == Some(n)
  {
    if n >= 10 {
      DecimalDigits(n / 10);
      var t, d := DecimalText(n / 10), [48 + n % 10];
      assert (t + d)[..|t + d| - 1] == t;
    }
  }

  lemma {:induction false} NothingToTrim(s: Bytes)
    requires s != [] && !SpaceByte(s[0]) && !SpaceByte(s[|s| - 1])
    ensures Trim(s) == s
  {
  }

  /** A printed length parses back. */
  lemma LengthRoundTrip(n: nat)
    ensures ParseInt(DecimalText(n)) == Some(n)
  {
    DecimalDigits(n);
    NothingToTrim(DecimalText(n));
  }

  lemma LabelHeader(digits: Bytes)
    requires digits != [] && !SpaceByte(digits[0]) && !SpaceByte(digits[|digits| - 1])
    ensures AddHeader(map[], LENGTH_LABEL + digits + [CR] + [LF]) == map[CONTENT_LENGTH := digits]
  {
    var text := LENGTH_LABEL + digits;
    assert text[0] == 67 && text[|text| - 1] == digits[|digits| - 1];
    TrimLineEnd(text);
    ColonOfLabel(digits);
    assert text[..14] == LENGTH_LABEL[..14];
    assert text[15..] == [32] + digits;
    LabelLower();
    TrimBlank(digits);
  }

  lemma HeaderLine(n: nat)
    ensures var text := LENGTH_LABEL + DecimalText(n);
            && AddHeader(map[], text + [CR] + [LF]) == map[CONTENT_LENGTH := DecimalText(n)]
            && AsciiBytes(text + [CR] + [LF])
            && forall i :: 0 <= i < |text + [CR]| ==> (text + [CR])[i] != LF
  {
    DecimalDigits(n);
    LabelHeader(DecimalText(n));
    assert forall i :: 0 <= i < 16 ==> LENGTH_LABEL[i] < 128 && LENGTH_LABEL[i] != LF;
  }

  lemma TrimLineEnd(text: Bytes)
    requires text != [] && !SpaceByte(text[0]) && !SpaceByte(text[|text| - 1])
    ensures Trim(text + [CR] + [LF]) == text
  {
    var s := text + [CR] + [LF];
    assert s[0] == text[0];
    assert s[..|s| - 1] == text + [CR];
    assert (text + [CR])[..|text|] == text;
    assert TrimEnd(text + [CR]) == TrimEnd(text);
  }

  lemma TrimBlank(digits: Bytes)
    requires digits != [] && !SpaceByte(digits[0]) && !SpaceByte(digits[|digits| - 1])
    ensures Trim([32] + digits) == digits
  {
    assert ([32] + digits)[1..] == digits;
    assert TrimStart(digits) == digits;
  }

  lemma LabelLower()
    ensures Lower(Trim(LENGTH_LABEL[..14])) == CONTENT_LENGTH
  {
    NothingToTrim(LENGTH_LABEL[..14]);
    assert |LENGTH_LABEL[..14]| == 14;
  }

  lemma ColonOfLabel(rest: Bytes)
    ensures ColonAt(LENGTH_LABEL + rest) == 14
  {
    var s := LENGTH_LABEL + rest;
    ColonInside(s);
    assert s[14] == COLON;
    assert forall i :: 0 <= i < 14 ==> LENGTH_LABEL[i] != COLON;
    assert forall i :: 0 <= i < 14 ==> s[i] == LENGTH_LABEL[i];
  }

  /** Reading what was written gives the message back, and leaves what follows untouched. */
  lemma ReadFrame<M(!new)>(p: Protocol<M>, m: M, rest: Bytes)
    requires Faithful(p)
    ensures ReadFrom(p, map[], Frame(p, m) + rest) == ReadOutcome(Read(m), rest)
  {
    var body := p.dump(m);
    var text := LENGTH_LABEL + DecimalText(|body|);
    var after := [CR, LF] + body + rest;
    HeaderLine(|body|);
    var line := text + [CR] + [LF];
    assert Frame(p, m) + rest == line + after;
    LineOf(text + [CR], after);
    assert (line + after)[|line|..] == after;
    BodyRead(p, m, rest);
    assert line[0] == 67;
  }

  lemma BodyRead<M(!new)>(p: Protocol<M>, m: M, rest: Bytes)
    requires Faithful(p)
    ensures var body := p.dump(m);
            ReadFrom(p, map[CONTENT_LENGTH := DecimalText(|body|)], [CR, LF] + body + rest) ==
            ReadOutcome(Read(m), rest)
  {
    var body := p.dump(m);
    var s := [CR, LF] + body + rest;
    assert s == [CR] + [LF] + (body + rest);
    LineOf([CR], body + rest);
    assert Line(s) == [CR, LF];
    assert s[2..] == body + rest;
    LengthRoundTrip(|body|);
    assert (body + rest)[..|body|] == body && (body + rest)[|body|..] == rest;
  }

  /** What the loop writes, until the stream ends. */
  function Serve<M>(p: Protocol<M>, s: Bytes): Bytes
    decreases |s|
  {
    var o := ReadFrom(p, map[], s);
    ReadingConsumes(p, map[], s);
    if s == [] || o.result == EndOfStream then [] else Reply(p, o.result) + Serve(p, o.rest)
  }

  /** What one round writes. */
  function Reply<M>(p: Protocol<M>, r: ReadResult<M>): Bytes {
    match r
    case EndOfStream => []
    case ParseError => Frame(p, p.parseError)
    case InvalidRequest => Frame(p, p.invalidRequest)
    case Read(m) => (match p.handle(m) case None => [] case Some(response) => Frame(p, response))
  }

  lemma ServeUnfolds<M>(p: Protocol<M>, s: Bytes)
    ensures var o := ReadFrom(p, map[], s);
            Serve(p, s) == if o.result == EndOfStream then [] else Reply(p, o.result) + Serve(p, o.rest)
  {
    ReadingConsumes(p, map[], s);
  }

  lemma ServeStep<M>(p: Protocol<M>, s: Bytes, output: Bytes)
    ensures var o := ReadFrom(p, map[], s);
            output + Serve(p, s) ==
            if o.result == EndOfStream then output else output + Reply(p, o.result) + Serve(p, o.rest)
  {
    ServeUnfolds(p, s);
    var o := ReadFrom(p, map[], s);
    Associative(output, Reply(p, o.result), Serve(p, o.rest));
  }

  lemma Associative(a: Bytes, b: Bytes, c: Bytes)
    ensures a + (b + c) == a + b + c && a + [] == a
  {
  }

  /** The loop ends on every finite input, well formed or not: each round returns or consumes a byte. */
  method ServeStreams<M>(p: Protocol<M>, input: InputStream) returns (output: Bytes)
    requires input.Valid()
    modifies input
    ensures input.Valid()
    ensures output == Serve(p, old(input.Remaining()))
    ensures input.Remaining() == []
  {
    output := [];
    while true
      invariant input.Valid()
      invariant output + Serve(p, input.Remaining()) == Serve(p, old(input.Remaining()))
      decreases |input.Remaining()|
    {
      ghost var before, written := input.Remaining(), output;
      ReadingConsumes(p, map[], before);
      ServeStep(p, before, output);
      var message := ReadFramedMessage(p, input);
      match message
      case EndOfStream =>
        return;
      case ParseError =>
        output := WriteFramedMessage(p, output, p.parseError);
      case InvalidRequest =>
        output := WriteFramedMessage(p, output, p.invalidRequest);
      case Read(m) =>
        var response := p.handle(m);
        if response.Some? {
          output := WriteFramedMessage(p, output, response.value);
        }
      assert output == written + Reply(p, message);
    }
  }

  /** The responses to a list of messages, in order; a message may have none. */
  function Responses<M>(p: Protocol<M>, ms: seq<M>): seq<M> {
    if ms == [] then []
    else (match p.handle(ms[0]) case None => [] case Some(r) => [r]) + Responses(p, ms[1..])
  }

  lemma WithoutPrefix(a: Bytes, b: Bytes, c: Bytes)
    requires [] + a == [] + b + c
    ensures a == b + c
  {
    assert [] + a == a && [] + b == b;
  }

  lemma FramedResponses<M>(p: Protocol<M>, ms: seq<M>)
    requires ms != []
    ensures FrameAll(p, Responses(p, ms)) == Reply(p, Read(ms[0])) + FrameAll(p, Responses(p, ms[1..]))
  {
    var later := Responses(p, ms[1..]);
    match p.handle(ms[0]) {
      case None =>
        assert [] + later == later;
        assert Reply(p, Read(ms[0])) + FrameAll(p, later) == FrameAll(p, later);
      case Some(r) => assert ([r] + later)[1..] == later;
    }
  }

  /** Served the frames of any messages, the loop writes exactly the frames of their responses. */
  lemma {:induction false} ServesEveryMessage<M(!new)>(p: Protocol<M>, ms: seq<M>)
    requires Faithful(p)
    ensures Serve(p, FrameAll(p, ms)) == FrameAll(p, Responses(p, ms))
  {
    if ms == [] {
      ReadingConsumes(p, map[], []);
    } else {
      var rest := FrameAll(p, ms[1..]);
      ReadFrame(p, ms[0], rest);
      ServesEveryMessage(p, ms[1..]);
      ServeStep(p, Frame(p, ms[0]) + rest, []);
      FramedResponses(p, ms);
      WithoutPrefix(Serve(p, Frame(p, ms[0]) + rest), Reply(p, Read(ms[0])), Serve(p, rest));
    }
  }

  /** The messages that repeated reading returns before it first finds the end or an error. */
  function ReadAll<M>(p: Protocol<M>, s: Bytes): (seq<M>, ReadOutcome<M>)
    decreases |s|
  {
    var o := ReadFrom(p, map[], s);
    ReadingConsumes(p, map[], s);
    if o.result.Read? && s != [] then
      var (ms, last) := ReadAll(p, o.rest);
      ([o.result.message] + ms, last)
    else ([], o)
  }

  /** Reading what was written returns exactly the messages, and then the end of the stream. */
  lemma {:induction false} FramesRoundTrip<M(!new)>(p: Protocol<M>, ms: seq<M>)
    requires Faithful(p)
    ensures ReadAll(p, FrameAll(p, ms)) == (ms, ReadOutcome(EndOfStream, []))
  {
    if ms == [] {
      ReadingConsumes(p, map[], []);
    } else {
      ReadFrame(p, ms[0], FrameAll(p, ms[1..]));
      FramesRoundTrip(p, ms[1..]);
      assert Frame(p, ms[0]) + FrameAll(p, ms[1..]) != [];
      assert [ms[0]] + ms[1..] == ms;
    }
  }

  // ---------- What a frame must look like, and what is said of one that does not ----------

  /** The bytes are the ASCII text. */
  predicate IsText(bytes: Bytes, text: string) {
    |bytes| == |text| && forall i :: 0 <= i < |bytes| ==> bytes[i] == text[i] as int
  }

  /** A frame, spelled out. */
  lemma FrameText<M>(p: Protocol<M>, m: M)
    ensures IsText(LENGTH_LABEL, "Content-Length: ") && IsText(CONTENT_LENGTH, "content-length")
    ensures Frame(p, m) == LENGTH_LABEL + DecimalText(|p.dump(m)|) + [13, 10, 13, 10] + p.dump(m)
  {
  }

  /** s is text with white space around it, and text neither begins nor ends with white space. */
  ghost predicate Trims(s: Bytes, text: Bytes) {
    && (text != [] ==> !SpaceByte(text[0]) && !SpaceByte(text[|text| - 1]))
    && exists a: Bytes, b: Bytes :: s == a + text + b && (forall x :: x in a || x in b ==> SpaceByte(x))
  }

  lemma {:induction false} TrimStartMeaning(s: Bytes) returns (a: Bytes)
    ensures s == a + TrimStart(s) && forall x :: x in a ==> SpaceByte(x)
    ensures TrimStart(s) != [] ==> !SpaceByte(TrimStart(s)[0])
  {
    if s != [] && SpaceByte(s[0]) {
      var rest := TrimStartMeaning(s[1..]);
      a := [s[0]] + rest;
    } else {
      a := [];
    }
  }

  lemma {:induction false} TrimEndMeaning(s: Bytes) returns (b: Bytes)
    ensures s == TrimEnd(s) + b && forall x :: x in b ==> SpaceByte(x)
    ensures TrimEnd(s) != [] ==> TrimEnd(s)[0] == s[0] && !SpaceByte(TrimEnd(s)[|TrimEnd(s)| - 1])
  {
    if s != [] && SpaceByte(s[|s| - 1]) {
      var rest := TrimEndMeaning(s[..|s| - 1]);
      b := rest + [s[|s| - 1]];
    } else {
      b := [];
    }
  }

  lemma TrimMeaning(s: Bytes)
    ensures Trims(s, Trim(s))
  {
    var a := TrimStartMeaning(s);
    var b := TrimEndMeaning(TrimStart(s));
    assert s == a + Trim(s) + b;
  }

  /** Upper-case letters become lower-case, and nothing else changes. */
  predicate SameButCase(a: Bytes, b: Bytes) {
    && |a| == |b|
    && forall i :: 0 <= i < |a| ==> b[i] == if 'A' as int <= a[i] <= 'Z' as int then a[i] + 32 else a[i]
  }

  lemma {:induction false} FirstColon(text: Bytes, k: nat)
    requires k < |text| && text[k] == COLON && COLON !in text[..k]
    ensures ColonAt(text) == k
  {
    if k > 0 {
      assert text[..k][0] == text[0];
      assert text[1..][..k - 1] == text[..k][1..];
      FirstColon(text[1..], k - 1);
    }
  }

  /** A header line names what is before its first colon, in any case and spacing, and the last line to name it counts;
      a line without a colon is as if it were not there. */
  lemma HeaderMeaning(headers: Headers, line: Bytes)
    ensures var text := Trim(line);
            && (COLON !in text ==> AddHeader(headers, line) == headers)
            && (forall k: nat :: k < |text| && text[k] == COLON && COLON !in text[..k] ==>
                  exists key :: SameButCase(Trim(text[..k]), key)
                                && AddHeader(headers, line) == headers[key := Trim(text[k + 1..])])
  {
    var text := Trim(line);
    ColonInside(text);
    assert ColonAt(text) < |text| ==> text[ColonAt(text)] in text;
    forall k: nat | k < |text| && text[k] == COLON && COLON !in text[..k]
      ensures exists key :: SameButCase(Trim(text[..k]), key)
                            && AddHeader(headers, line) == headers[key := Trim(text[k + 1..])]
    {
      FirstColon(text, k);
      assert SameButCase(Trim(text[..k]), Lower(Trim(text[..k])));
    }
  }

  /** A header line is taken from the stream, and reading goes on with what it named. */
  lemma ReadHeader<M>(p: Protocol<M>, headers: Headers, line: Bytes, rest: Bytes)
    requires LF !in line && line != [] && line != [CR]
    ensures var s := line + [LF] + rest;
            ReadFrom(p, headers, s) ==
            if p.utf8(line + [LF]) then ReadFrom(p, AddHeader(headers, line + [LF]), rest)
            else ReadOutcome(InvalidRequest, rest)
  {
    var s := line + [LF] + rest;
    LineOf(line, rest);
    assert s[|line| + 1..] == rest;
    assert (line + [LF])[0] == line[0];
    assert |line| == 1 ==> line == [line[0]];
  }

  /** An empty line, of either kind, ends the headers; and so, badly, does the end of the stream after any. */
  lemma ReadEnd<M>(p: Protocol<M>, headers: Headers, rest: Bytes)
    ensures ReadFrom(p, headers, [CR, LF] + rest) == ReadBody(p, headers, rest)
    ensures ReadFrom(p, headers, [LF] + rest) == ReadBody(p, headers, rest)
    ensures ReadFrom(p, headers, []) == ReadOutcome(if headers == map[] then EndOfStream else InvalidRequest, [])
  {
    assert [CR, LF] + rest == [CR] + [LF] + rest;
    LineOf([CR], rest);
    assert ([CR, LF] + rest)[2..] == rest;
    assert [LF] + rest == [] + [LF] + rest;
    LineOf([], rest);
    assert ([LF] + rest)[1..] == rest;
  }

  /** A body of the announced length is parsed, and no more is taken; bytes that are no JSON are a parse error, and
      everything else that is wrong is an invalid request: no length, no number, a negative one, too few bytes, no
      UTF-8, no object. */
  lemma BodyMeaning<M>(p: Protocol<M>, headers: Headers, s: Bytes)
    ensures var r := ReadBody(p, headers, s);
            var length := if CONTENT_LENGTH in headers then ParseInt(headers[CONTENT_LENGTH]) else None;
            && (length.None? ==> r == ReadOutcome(InvalidRequest, s))
            && (length.Some? && (length.value < 0 || |s| < length.value) ==> r == ReadOutcome(InvalidRequest, []))
            && (length.Some? && 0 <= length.value <= |s| ==>
                  var body := s[..length.value];
                  && r.rest == s[length.value..]
                  && (r.result == ParseError <==> p.parse(body).BadJson?)
                  && (r.result == InvalidRequest <==> p.parse(body).BadUtf8? || p.parse(body).NotObject?)
                  && (forall m :: r.result == Read(m) <==> p.parse(body) == Message(m)))
  {
  }

  lemma {:induction false} DigitsOnly(s: Bytes)
    ensures DigitsValue(s).Some? ==> forall i :: 0 <= i < |s| ==> DigitByte(s[i]) || s[i] == 95
  {
    if s != [] && DigitByte(s[|s| - 1]) && |s| > 1 {
      var init := s[..|s| - 1];
      DigitsOnly(init);
      if |init| > 1 && init[|init| - 1] == 95 {
        DigitsOnly(init[..|init| - 1]);
      }
    }
  }

  /** A length may carry a sign and white space, and is otherwise digits, with underscores at most. */
  lemma LengthMeaning(n: nat, s: Bytes)
    ensures ParseInt([43] + DecimalText(n)) == Some(n as int)
    ensures ParseInt([45] + DecimalText(n)) == Some(-(n as int))
    ensures ParseInt(s).Some? ==>
              forall i :: 0 <= i < |s| ==> DigitByte(s[i]) || s[i] in {95, 43, 45} || SpaceByte(s[i])
    ensures (forall i :: 0 <= i < |s| ==> SpaceByte(s[i])) ==> ParseInt(s) == None
  {
    DecimalDigits(n);
    forall sign: Byte | sign == 43 || sign == 45 ensures Trim([sign] + DecimalText(n)) == [sign] + DecimalText(n) {
      NothingToTrim([sign] + DecimalText(n));
    }
    assert ([43 as Byte] + DecimalText(n))[1..] == DecimalText(n);
    assert ([45 as Byte] + DecimalText(n))[1..] == DecimalText(n);
    TrimMeaning(s);
    var text := Trim(s);
    var a: Bytes, b: Bytes :| s == a + text + b && (forall x :: x in a || x in b ==> SpaceByte(x));
    if ParseInt(s).Some? {
      DigitsOnly(text);
      DigitsOnly(text[1..]);
      forall i | 0 <= i < |s| ensures DigitByte(s[i]) || s[i] in {95, 43, 45} || SpaceByte(s[i]) {
        if |a| <= i < |a| + |text| {
          assert s[i] == text[i - |a|];
          assert i - |a| > 0 ==> text[1..][i - |a| - 1] == text[i - |a|];
        } else if i < |a| {
          assert s[i] in a;
        } else {
          assert s[i] == b[i - |a| - |text|];
        }
      }
    }
    if text != [] {
      assert s[|a|] == text[0];
    }
  }

  /** Each round answers what it read: bytes that are no JSON with one error, other bad frames with the other, and a
      message with its response, if it has one. */
  lemma ServeAnswers<M>(p: Protocol<M>, s: Bytes)
    requires s != []
    ensures var o := ReadFrom(p, map[], s);
            && |o.rest| < |s|
            && (o.result == ParseError ==> Serve(p, s) == Frame(p, p.parseError) + Serve(p, o.rest))
            && (o.result == InvalidRequest ==> Serve(p, s) == Frame(p, p.invalidRequest) + Serve(p, o.rest))
            && (forall m :: o.result == Read(m) && p.handle(m).None? ==> Serve(p, s) == Serve(p, o.rest))
            && (forall m, response :: o.result == Read(m) && p.handle(m) == Some(response) ==>
                  Serve(p, s) == Frame(p, response) + Serve(p, o.rest))
  {
    ReadingConsumes(p, map[], s);
    var o := ReadFrom(p, map[], s);
    assert [] + Serve(p, o.rest) == Serve(p, o.rest);
  }
}
