/** Message framing of src/lsp/comms.cpp, after the Header Part of the Base Protocol in the Language Server
    Protocol, version 3.16. A byte is written as the character with its code. */
module Framing {
  import opened Options

  type Bytes = string

  const SIZE_MODULUS := 0x1_0000_0000_0000_0000

  // ------------------------------------------------------------------
  // Numbers
  // ------------------------------------------------------------------

  predicate IsDigit(c: char) {
    '0' <= c <= '9'
  }

  function DigitValue(c: char): nat
    requires IsDigit(c)
  {
    c as int - '0' as int
  }

  function DigitChar(d: nat): (c: char)
    requires d < 10
    ensures IsDigit(c) && DigitValue(c) == d
  {
    (d + '0' as int) as char
  }

  /** Decimal notation, as `<<` writes a size. */
  function Decimal(n: nat): (s: Bytes)
    ensures s != [] && forall i :: 0 <= i < |s| ==> IsDigit(s[i])
  {
    if n < 10 then [DigitChar(n)] else Decimal(n / 10) + [DigitChar(n % 10)]
  }

  /** Length of the leading run of digits. */
  function DigitRun(s: Bytes): (n: nat)
    ensures n <= |s| && forall i :: 0 <= i < n ==> IsDigit(s[i])
  {
    if s != [] && IsDigit(s[0]) then 1 + DigitRun(s[1..]) else 0
  }

  function ValueOf(digits: Bytes): nat
    requires forall i :: 0 <= i < |digits| ==> IsDigit(digits[i])
  {
    if digits == [] then 0 else 10 * ValueOf(digits[..|digits| - 1]) + DigitValue(digits[|digits| - 1])
  }

  /** `std::from_chars` into a 64-bit size: the leading digits, or None when there are none or they do not fit. */
  function FromChars(s: Bytes): Option<nat> {
    var n := DigitRun(s);
    if n == 0 || ValueOf(s[..n]) >= SIZE_MODULUS then None else Some(ValueOf(s[..n]))
  }

  // ------------------------------------------------------------------
  // Header lines
  // ------------------------------------------------------------------

  function StripReturns(line: Bytes): Bytes {
    if line != [] && line[|line| - 1] == '\r' then StripReturns(line[..|line| - 1]) else line
  }

  function FindByte(s: Bytes, c: char): (k: nat)
    ensures k <= |s| && (forall i :: 0 <= i < k ==> s[i] != c) && (k < |s| ==> s[k] == c)
  {
    if s == [] || s[0] == c then 0 else 1 + FindByte(s[1..], c)
  }

  function ToLower(c: char): char {
    if 'A' <= c <= 'Z' then (c as int + 32) as char else c
  }

  function Lowered(s: Bytes): Bytes {
    seq(|s|, i requires 0 <= i < |s| => ToLower(s[i]))
  }

  predicate IsSpace(c: char) {
    c == ' ' || 9 <= c as int <= 13
  }

  function SkipSpaces(s: Bytes): Bytes {
    if s != [] && IsSpace(s[0]) then SkipSpaces(s[1..]) else s
  }

  /** What a header line does: it ends the headers, or reading goes on with a content length. */
  datatype HeaderStep = Stop | Continue(length: nat)

  function HeaderLine(raw: Bytes, length: nat): HeaderStep {
    var line := StripReturns(raw);
    if line == [] then Stop
    else
      var colon := FindByte(line, ':');
      if colon == |line| || Lowered(line[..colon]) != "content-length" then Continue(length)
      else
        var value := SkipSpaces(line[colon + 1..]);
        if value == [] || FromChars(value).None? then Stop else Continue(FromChars(value).value)
  }

  // ------------------------------------------------------------------
  // The stream, not cut into chunks
  // ------------------------------------------------------------------

  /** Header lines up to the one that ends them: the content length and what follows. None at end of stream. */
  function ReadHeaders(bytes: Bytes, length: nat): (r: Option<(nat, Bytes)>)
    ensures r.Some? ==> |r.value.1| < |bytes|
    decreases |bytes|
  {
    var k := FindByte(bytes, '\n');
    if k == |bytes| then None
    else
      match HeaderLine(bytes[..k], length)
      case Stop => Some((length, bytes[k + 1..]))
      case Continue(next) => ReadHeaders(bytes[k + 1..], next)
  }

  /** The next message and what follows it. A length of zero is skipped. */
  function NextMessage(bytes: Bytes): (r: Option<(Bytes, Bytes)>)
    ensures r.Some? ==> |r.value.1| < |bytes|
    decreases |bytes|
  {
    match ReadHeaders(bytes, 0)
    case None => None
    case Some((length, rest)) =>
      if length == 0 then NextMessage(rest)
      else if |rest| < length then None
      else Some((rest[..length], rest[length..]))
  }

  /** All messages, up to the end of the stream. */
  function AllMessages(bytes: Bytes): seq<Bytes>
    decreases |bytes|
  {
    match NextMessage(bytes)
    case None => []
    case Some((message, rest)) => [message] + AllMessages(rest)
  }

  // ------------------------------------------------------------------
  // Writing
  // ------------------------------------------------------------------

  const FIELD := "Content-Length: "

  function Frame(data: Bytes): Bytes {
    FIELD + Decimal(|data|) + "\r\n\r\n" + data
  }

  class Writer {
    var buffer: Bytes
    var sent: Bytes

    constructor ()
      ensures buffer == [] && sent == []
    {
      buffer, sent := [], [];
    }

    /** `send_message`, after the message has been made text; the write takes all of the buffer. */
    method SendMessage(data: Bytes)
      requires buffer == []
      modifies this
      ensures buffer == [] && sent == old(sent) + Frame(data)
      ensures sent == old(sent) + "Content-Length: " + Decimal(|data|) + "\r\n\r\n" + data
    {
      buffer := buffer + FIELD;
      buffer := buffer + Decimal(|data|);
      buffer := buffer + "\r\n\r\n";
      buffer := buffer + data;
      assert buffer == Frame(data);
      sent := sent + buffer;
      buffer := [];
    }
  }

  // ------------------------------------------------------------------
  // Reading
  // ------------------------------------------------------------------

  function Concat(chunks: seq<Bytes>): Bytes {
    if chunks == [] then [] else chunks[0] + Concat(chunks[1..])
  }

  /** `read_message` over a stream that delivers bytes in chunks and then ends. */
  class Reader {
    var buf: Bytes
    var incoming: seq<Bytes>

    /** The bytes not yet consumed. */
    ghost function Rest(): Bytes
      reads this
    {
      buf + Concat(incoming)
    }

    constructor (chunks: seq<Bytes>)
      ensures Rest() == Concat(chunks)
    {
      buf, incoming := [], chunks;
    }

    /** One read from the stream, of at most `limit` bytes; false at its end. What does not fit is left there. */
    method ReadSome(limit: nat) returns (ok: bool)
      requires limit > 0
      modifies this
      ensures Rest() == old(Rest())
      ensures ok == (old(incoming) != [])
      ensures ok ==> |Concat(incoming)| + |incoming| < |Concat(old(incoming))| + |old(incoming)|
      ensures ok ==> |old(buf)| <= |buf| <= |old(buf)| + limit
      ensures !ok ==> buf == old(buf) && incoming == []
    {
      if incoming == [] {
        return false;
      }
      var chunk := incoming[0];
      ghost var later := Concat(incoming[1..]);
      if |chunk| <= limit {
        buf, incoming := buf + chunk, incoming[1..];
        assert old(buf) + (chunk + later) == old(buf) + chunk + later;
      } else {
        var taken, left := chunk[..limit], chunk[limit..];
        buf, incoming := buf + taken, [left] + incoming[1..];
        assert incoming[1..] == old(incoming)[1..];
        assert chunk == taken + left;
        assert old(buf) + (taken + left + later) == old(buf) + taken + (left + later);
      }
      ok := true;
    }

    /** `async_read_until` a newline: the number of bytes up to and including it, which are then in the buffer. */
    method ReadLine() returns (ok: bool, bytesRead: nat)
      modifies this
      ensures Rest() == old(Rest())
      ensures ok == (FindByte(Rest(), '\n') < |Rest()|)
      ensures ok ==> bytesRead == FindByte(Rest(), '\n') + 1 && bytesRead <= |buf|
    {
      ok := true;
      while FindByte(buf, '\n') == |buf|
        invariant Rest() == old(Rest())
        decreases |Concat(incoming)| + |incoming|
      {
        ok := ReadSome(0x1_0000);
        if !ok {
          assert Rest() == buf;
          return false, 0;
        }
      }
      bytesRead := FindByte(buf, '\n') + 1;
      FindByteInPrefix(buf, Concat(incoming), '\n');
    }

    method Consume(n: nat)
      requires n <= |buf|
      modifies this
      ensures Rest() == old(Rest())[n..] && buf == old(buf)[n..] && incoming == old(incoming)
    {
      buf := buf[n..];
    }

    /** The inner loop of `read_message`. */
    method ReadHeaderLines() returns (ok: bool, contentLength: nat)
      modifies this
      ensures match ReadHeaders(old(Rest()), 0)
              case None => !ok
              case Some((length, rest)) => ok && contentLength == length && Rest() == rest
    {
      contentLength := 0;
      while true
        invariant ReadHeaders(Rest(), contentLength) == ReadHeaders(old(Rest()), 0)
        decreases |Rest()|
      {
        var bytesRead;
        ok, bytesRead := ReadLine();
        if !ok {
          return;
        }
        var line := buf[..bytesRead - 1];
        assert line == Rest()[..bytesRead - 1];
        Consume(bytesRead);
        var step := ReadHeaderLine(line, contentLength);
        if step.Stop? {
          return;
        }
        contentLength := step.length;
      }
    }

    /** The body of that loop, after the line has been taken out of the buffer. */
    static method ReadHeaderLine(raw: Bytes, contentLength: nat) returns (step: HeaderStep)
      ensures step == HeaderLine(raw, contentLength)
    {
      var line := raw;
      while |line| > 0 && line[|line| - 1] == '\r'
        invariant StripReturns(line) == StripReturns(raw)
        decreases |line|
      {
        line := line[..|line| - 1];
      }
      if line == [] {
        return Stop;
      }
      var colon := FindByte(line, ':');
      if colon != |line| {
        var header := Lowered(line[..colon]);
        if header != "content-length" {
          return Continue(contentLength);
        }
        ghost var afterColon := line[colon + 1..];
        colon := colon + 1;
        while colon < |line| && IsSpace(line[colon])
          invariant colon <= |line|
          invariant SkipSpaces(line[colon..]) == SkipSpaces(afterColon)
        {
          assert line[colon..][1..] == line[colon + 1..];
          colon := colon + 1;
        }
        if colon >= |line| {
          return Stop;
        }
        var length := FromChars(line[colon..]);
        if length.None? {
          return Stop;
        }
        return Continue(length.value);
      }
      step := Continue(contentLength);
    }

    /** The body: as many bytes as the header says, or nothing when the stream ends first. */
    method ReadBody(contentLength: nat) returns (ok: bool, message: Bytes)
      modifies this
      ensures ok == (|old(Rest())| >= contentLength)
      ensures ok ==> message == old(Rest())[..contentLength] && Rest() == old(Rest())[contentLength..]
    {
      ok := true;
      while |buf| < contentLength
        invariant Rest() == old(Rest())
        decreases |Concat(incoming)| + |incoming|
      {
        ok := ReadSome(contentLength - |buf|);
        if !ok {
          return false, [];
        }
      }
      message := buf[..contentLength];
      assert message == Rest()[..contentLength];
      Consume(contentLength);
    }

    /** Up to the next message that is yielded, or the end of the stream. However the stream is cut into chunks,
        the result depends on its bytes alone. */
    method ReadMessage() returns (message: Option<Bytes>)
      modifies this
      ensures match NextMessage(old(Rest()))
              case None => message == None
              case Some((data, rest)) => message == Some(data) && Rest() == rest
    {
      while true
        invariant NextMessage(Rest()) == NextMessage(old(Rest()))
        decreases |Rest()|
      {
        var ok, contentLength := ReadHeaderLines();
        if !ok {
          return None;
        }
        if contentLength != 0 {
          var data;
          ok, data := ReadBody(contentLength);
          return if ok then Some(data) else None;
        }
      }
    }

    /** The receiving loop of the server: resume the reader until it ends. */
    method ReceiveAll() returns (messages: seq<Bytes>)
      modifies this
      ensures messages == AllMessages(old(Rest()))
    {
      messages := [];
      while true
        invariant messages + AllMessages(Rest()) == AllMessages(old(Rest()))
        decreases |Rest()|
      {
        ghost var before := Rest();
        var message := ReadMessage();
        if message.None? {
          return;
        }
        messages := messages + [message.value];
      }
    }
  }

  lemma {:induction false} FindByteInPrefix(a: Bytes, b: Bytes, c: char)
    ensures FindByte(a, c) < |a| ==> FindByte(a + b, c) == FindByte(a, c)
    ensures FindByte(a, c) == |a| ==> FindByte(a + b, c) == |a| + FindByte(b, c)
  {
    if a == [] {
      assert a + b == b;
    } else {
      assert (a + b)[1..] == a[1..] + b;
      FindByteInPrefix(a[1..], b, c);
    }
  }

  // ------------------------------------------------------------------
  // Round trip
  // ------------------------------------------------------------------

  lemma {:induction false} DecimalIsRead(n: nat, rest: Bytes)
    requires rest == [] || !IsDigit(rest[0])
    ensures DigitRun(Decimal(n) + rest) == |Decimal(n)|
    ensures ValueOf(Decimal(n)) == n
  {
    DigitsRun(Decimal(n), rest);
    DecimalValue(n);
  }

  lemma {:induction false} DigitsRun(digits: Bytes, rest: Bytes)
    requires forall i :: 0 <= i < |digits| ==> IsDigit(digits[i])
    requires rest == [] || !IsDigit(rest[0])
    ensures DigitRun(digits + rest) == |digits|
  {
    if digits == [] {
      assert digits + rest == rest;
    } else {
      assert (digits + rest)[1..] == digits[1..] + rest;
      DigitsRun(digits[1..], rest);
    }
  }

  /** Reading back a decimal gives the number that was written. */
  lemma {:induction false} DecimalValue(n: nat)
    ensures ValueOf(Decimal(n)) == n
  {
    if n < 10 {
      assert Decimal(n)[..0] == [];
    } else {
      DecimalValue(n / 10);
      assert Decimal(n)[..|Decimal(n)| - 1] == Decimal(n / 10);
    }
  }

  /** And it is written with as few digits as there can be. */
  lemma {:induction false} DecimalIsShort(n: nat)
    ensures Decimal(n)[0] == '0' ==> n == 0 && Decimal(n) == "0"
  {
    if n >= 10 {
      DecimalIsShort(n / 10);
    }
  }

  /** A line that ends in a newline, and the rest. */
  lemma FirstLine(line: Bytes, rest: Bytes)
    requires FindByte(line, '\n') == |line|
    ensures FindByte(line + "\n" + rest, '\n') == |line|
    ensures (line + "\n" + rest)[..|line|] == line && (line + "\n" + rest)[|line| + 1..] == rest
  {
    assert line + "\n" + rest == line + ("\n" + rest);
    FindByteInPrefix(line, "\n" + rest, '\n');
  }

  lemma LoweredField()
    ensures Lowered("Content-Length") == "content-length"
  {
    assert Lowered("Content-Length")[0] == 'c' && Lowered("Content-Length")[8] == 'l';
  }

  lemma FieldValue(n: nat)
    requires n < SIZE_MODULUS
    ensures SkipSpaces(" " + Decimal(n)) == Decimal(n) && FromChars(Decimal(n)) == Some(n)
  {
    var digits := Decimal(n);
    assert (" " + digits)[1..] == digits;
    DecimalIsRead(n, []);
    assert digits + [] == digits && digits[..|digits|] == digits;
  }

  /** Any number of blank lines, each with any number of carriage returns. */
  predicate BlankLines(s: Bytes) {
    s == [] || (s[|s| - 1] == '\n' && forall i :: 0 <= i < |s| ==> s[i] == '\r' || s[i] == '\n')
  }

  lemma {:induction false} OnlyReturnsIsBlank(line: Bytes)
    requires forall i :: 0 <= i < |line| ==> line[i] == '\r'
    ensures StripReturns(line) == []
  {
    if line != [] {
      OnlyReturnsIsBlank(line[..|line| - 1]);
    }
  }

  /** Blank lines before a frame are skipped. */
  lemma {:induction false} BlankLinesSkipped(blank: Bytes, rest: Bytes)
    requires BlankLines(blank)
    ensures NextMessage(blank + rest) == NextMessage(rest)
    decreases |blank|
  {
    if blank == [] {
      assert blank + rest == rest;
    } else {
      var k := FindByte(blank, '\n');
      assert k < |blank| by {
        assert blank[|blank| - 1] == '\n';
      }
      var line, more := blank[..k], blank[k + 1..];
      OnlyReturnsIsBlank(line);
      assert blank + rest == line + "\n" + (more + rest);
      FirstLine(line, more + rest);
      assert more != [] ==> more[|more| - 1] == blank[|blank| - 1];
      BlankLinesSkipped(more, rest);
    }
  }

  // ------------------------------------------------------------------
  // Frames, whoever writes them
  // ------------------------------------------------------------------

  /** A header line with some other field, or without a colon. */
  predicate OtherHeader(raw: Bytes) {
    var line := StripReturns(raw);
    var colon := FindByte(line, ':');
    && FindByte(raw, '\n') == |raw| && line != []
    && (colon < |line| ==> Lowered(line[..colon]) != "content-length")
  }

  function Lines(headers: seq<Bytes>): Bytes {
    if headers == [] then [] else headers[0] + "\n" + Lines(headers[1..])
  }

  lemma {:induction false} OtherHeadersSkipped(headers: seq<Bytes>, rest: Bytes, length: nat)
    requires forall i :: 0 <= i < |headers| ==> OtherHeader(headers[i])
    ensures ReadHeaders(Lines(headers) + rest, length) == ReadHeaders(rest, length)
    decreases |headers|
  {
    if headers == [] {
      assert [] + rest == rest;
    } else {
      var later := Lines(headers[1..]) + rest;
      assert Lines(headers) + rest == headers[0] + "\n" + later;
      FirstLine(headers[0], later);
      OtherHeadersSkipped(headers[1..], rest, length);
    }
  }

  /** A frame as the protocol allows it: the length field written in any case, and other fields before and after. */
  function ForeignFrame(before: seq<Bytes>, name: Bytes, after: seq<Bytes>, data: Bytes): Bytes {
    Lines(before) + (name + ": " + Decimal(|data|) + "\r" + "\n" + (Lines(after) + ("\r" + "\n" + data)))
  }

  lemma {:induction false} NameHasNoBytes(name: Bytes)
    requires Lowered(name) == "content-length"
    ensures |name| == 14 && forall i :: 0 <= i < |name| ==> name[i] != ':' && name[i] != '\n'
  {
    forall i | 0 <= i < |name| ensures name[i] != ':' && name[i] != '\n' {
      assert Lowered(name)[i] == ToLower(name[i]);
    }
  }

  lemma ForeignLengthLine(name: Bytes, n: nat, length: nat)
    requires Lowered(name) == "content-length" && n < SIZE_MODULUS
    ensures var raw := name + ": " + Decimal(n) + "\r";
            HeaderLine(raw, length) == Continue(n) && FindByte(raw, '\n') == |raw|
  {
    var digits := Decimal(n);
    var line := name + ": " + digits;
    var raw := line + "\r";
    NameHasNoBytes(name);
    assert raw[..|line|] == line && line[|line| - 1] == digits[|digits| - 1];
    assert StripReturns(raw) == line;
    assert line[14] == ':' && line[..14] == name && line[15..] == " " + digits;
    FieldValue(n);
    forall i | 0 <= i < |raw| ensures raw[i] != '\n' {
      if 16 <= i < |line| {
        assert raw[i] == digits[i - 16];
      }
    }
  }

  /** Reading such a frame gives its payload and leaves what follows; without a payload the frame is passed over. */
  lemma ForeignFrameIsRead(before: seq<Bytes>, name: Bytes, after: seq<Bytes>, data: Bytes, rest: Bytes)
    requires Lowered(name) == "content-length" && |data| < SIZE_MODULUS
    requires forall i :: 0 <= i < |before| ==> OtherHeader(before[i])
    requires forall i :: 0 <= i < |after| ==> OtherHeader(after[i])
    ensures NextMessage(ForeignFrame(before, name, after, data) + rest) ==
            if data == [] then NextMessage(rest) else Some((data, rest))
  {
    hide Lines, StripReturns, Decimal;
    var raw := name + ": " + Decimal(|data|) + "\r";
    var ending := "\r" + "\n" + (data + rest);
    var later := Lines(after) + ending;
    assert ForeignFrame(before, name, after, data) + rest == Lines(before) + (raw + "\n" + later);
    OtherHeadersSkipped(before, raw + "\n" + later, 0);
    ForeignLengthLine(name, |data|, 0);
    FirstLine(raw, later);
    OtherHeadersSkipped(after, ending, |data|);
    HeadersEnd(data + rest, |data|);
    assert (data + rest)[..|data|] == data && (data + rest)[|data|..] == rest;
    assert data == [] ==> data + rest == rest;
  }

  /** Reading a frame gives its payload back, whatever the payload holds, and leaves what follows. */
  lemma FrameIsRead(data: Bytes, rest: Bytes)
    requires |data| < SIZE_MODULUS
    ensures NextMessage(Frame(data) + rest) == if data == [] then NextMessage(rest) else Some((data, rest))
  {
    hide NextMessage;
    LoweredField();
    ForeignFrameIsRead([], "Content-Length", [], data, rest);
    assert Frame(data) == ForeignFrame([], "Content-Length", [], data);
  }

  /** Of several length fields the last one counts. */
  lemma LaterLengthCounts(name: Bytes, n: nat, length: nat, rest: Bytes)
    requires Lowered(name) == "content-length" && n < SIZE_MODULUS
    ensures ReadHeaders(name + ": " + Decimal(n) + "\r" + "\n" + rest, length) == ReadHeaders(rest, n)
  {
    hide Decimal, HeaderLine;
    var raw := name + ": " + Decimal(n) + "\r";
    ForeignLengthLine(name, n, length);
    FirstLine(raw, rest);
  }

  /** A frame that is cut short anywhere gives nothing. */
  lemma CutFrameGivesNothing(data: Bytes, k: nat)
    requires k < |Frame(data)| && |data| < SIZE_MODULUS
    ensures NextMessage(Frame(data)[..k]) == None
  {
    hide NextMessage, ReadHeaders, Decimal, HeaderLine;
    LoweredField();
    var raw := "Content-Length" + ": " + Decimal(|data|) + "\r";
    ForeignLengthLine("Content-Length", |data|, 0);
    var ending := "\r" + "\n" + data;
    var cut := Frame(data)[..k];
    assert Frame(data) == raw + "\n" + ending;
    if k <= |raw| {
      assert cut == raw[..k];
      NoLine(cut);
    } else {
      var rest := ending[..k - |raw| - 1];
      assert cut == raw + "\n" + rest;
      FirstLine(raw, rest);
      LengthRead(cut, raw, rest, |data|);
      if k - |raw| - 1 < 2 {
        assert rest == "\r"[..k - |raw| - 1];
        NoLine(rest);
        NoHeaders(cut, rest, |data|);
      } else {
        var body := data[..k - |raw| - 3];
        assert rest == "\r" + "\n" + body;
        HeadersEnd(body, |data|);
        ShortBody(cut, |data|, body);
      }
    }
  }

  lemma NoLine(bytes: Bytes)
    requires forall i :: 0 <= i < |bytes| ==> bytes[i] != '\n'
    ensures forall length: nat :: ReadHeaders(bytes, length) == None
    ensures NextMessage(bytes) == None
  {
  }

  lemma LengthRead(cut: Bytes, raw: Bytes, rest: Bytes, n: nat)
    requires FindByte(cut, '\n') == |raw| < |cut| && cut[..|raw|] == raw && cut[|raw| + 1..] == rest
    requires HeaderLine(raw, 0) == Continue(n)
    ensures ReadHeaders(cut, 0) == ReadHeaders(rest, n)
  {
  }

  lemma NoHeaders(cut: Bytes, rest: Bytes, n: nat)
    requires ReadHeaders(cut, 0) == ReadHeaders(rest, n) == None
    ensures NextMessage(cut) == None
  {
  }

  lemma ShortBody(cut: Bytes, n: nat, body: Bytes)
    requires ReadHeaders(cut, 0) == Some((n, body)) && |body| < n
    ensures NextMessage(cut) == None
  {
  }

  /** A length field without a number ends the headers, and the line is passed over. */
  lemma BadLengthIsPassedOver(name: Bytes, blanks: Bytes, junk: Bytes, rest: Bytes)
    requires Lowered(name) == "content-length"
    requires forall i :: 0 <= i < |blanks| ==> blanks[i] == ' '
    requires junk != [] ==> !IsSpace(junk[0]) && !IsDigit(junk[0])
    requires forall i :: 0 <= i < |junk| ==> junk[i] != '\n' && junk[i] != '\r'
    ensures NextMessage(name + ":" + blanks + junk + "\n" + rest) == NextMessage(rest)
  {
    hide NextMessage, ReadHeaders, StripReturns;
    var raw := name + ":" + blanks + junk;
    NameHasNoBytes(name);
    NoReturnsAtEnd(raw);
    assert raw[14] == ':' && raw[..14] == name && raw[15..] == blanks + junk;
    assert FindByte(raw, '\n') == |raw|;
    SpacesSkipped(blanks, junk);
    assert HeaderLine(raw, 0) == Stop;
    FirstLine(raw, rest);
    StoppedAt(raw + "\n" + rest, raw, rest);
  }

  lemma NoReturnsAtEnd(raw: Bytes)
    requires raw != [] && raw[|raw| - 1] != '\r'
    ensures StripReturns(raw) == raw
  {
  }

  lemma {:induction false} SpacesSkipped(blanks: Bytes, junk: Bytes)
    requires forall i :: 0 <= i < |blanks| ==> blanks[i] == ' '
    requires junk != [] ==> !IsSpace(junk[0])
    ensures SkipSpaces(blanks + junk) == junk
  {
    if blanks == [] {
      assert blanks + junk == junk;
    } else {
      assert (blanks + junk)[1..] == blanks[1..] + junk;
      SpacesSkipped(blanks[1..], junk);
    }
  }

  lemma StoppedAt(bytes: Bytes, raw: Bytes, rest: Bytes)
    requires FindByte(bytes, '\n') == |raw| < |bytes| && bytes[..|raw|] == raw && bytes[|raw| + 1..] == rest
    requires HeaderLine(raw, 0) == Stop
    ensures NextMessage(bytes) == NextMessage(rest)
  {
  }

  lemma HeadersEnd(body: Bytes, length: nat)
    ensures ReadHeaders("\r" + "\n" + body, length) == Some((length, body))
  {
    FirstLine("\r", body);
    OnlyReturnsIsBlank("\r");
  }

  // ------------------------------------------------------------------
  // Whole streams
  // ------------------------------------------------------------------

  /** Frames with blank lines before each. */
  function Stream(payloads: seq<Bytes>, blanks: seq<Bytes>): Bytes
    requires |blanks| == |payloads| + 1
  {
    if payloads == [] then blanks[0]
    else blanks[0] + (Frame(payloads[0]) + Stream(payloads[1..], blanks[1..]))
  }

  /** The payloads that hold anything. */
  function NonEmpty(payloads: seq<Bytes>): seq<Bytes> {
    if payloads == [] then []
    else (if payloads[0] == [] then [] else [payloads[0]]) + NonEmpty(payloads[1..])
  }

  lemma {:induction false} NothingDropped(payloads: seq<Bytes>)
    requires forall i :: 0 <= i < |payloads| ==> payloads[i] != []
    ensures NonEmpty(payloads) == payloads
  {
    if payloads != [] {
      NothingDropped(payloads[1..]);
    }
  }

  /** Reading a stream of frames gives the payloads that are not empty, in order, and nothing else. */
  lemma {:induction false} StreamIsRead(payloads: seq<Bytes>, blanks: seq<Bytes>)
    requires |blanks| == |payloads| + 1 && forall i :: 0 <= i < |blanks| ==> BlankLines(blanks[i])
    requires forall i :: 0 <= i < |payloads| ==> |payloads[i]| < SIZE_MODULUS
    ensures AllMessages(Stream(payloads, blanks)) == NonEmpty(payloads)
    decreases |payloads|
  {
    if payloads == [] {
      BlankLinesSkipped(blanks[0], []);
      assert blanks[0] + [] == blanks[0];
    } else {
      var later := Stream(payloads[1..], blanks[1..]);
      BlankLinesSkipped(blanks[0], Frame(payloads[0]) + later);
      FrameIsRead(payloads[0], later);
      StreamIsRead(payloads[1..], blanks[1..]);
    }
  }

  /** The whole channel: payloads sent one after the other, the bytes cut into chunks in any way, and read. What was
      sent arrives, except for payloads of no bytes. */
  method Transfer(payloads: seq<Bytes>, chunks: seq<Bytes>, blanks: seq<Bytes>) returns (received: seq<Bytes>)
    requires |blanks| == |payloads| + 1 && forall i :: 0 <= i < |blanks| ==> BlankLines(blanks[i])
    requires forall i :: 0 <= i < |payloads| ==> |payloads[i]| < SIZE_MODULUS
    requires Concat(chunks) == Stream(payloads, blanks)
    ensures received == NonEmpty(payloads)
    ensures (forall i :: 0 <= i < |payloads| ==> payloads[i] != []) ==> received == payloads
  {
    StreamIsRead(payloads, blanks);
    if forall i :: 0 <= i < |payloads| ==> payloads[i] != [] {
      NothingDropped(payloads);
    }
    var reader := new Reader(chunks);
    received := reader.ReceiveAll();
  }
}
