/** What crawler and server print for each other, and how each reads what the other printed. */
module Http {
  import opened Wrappers
  import opened CText
  import opened Sockets
  import opened Queues

  const CRLF := "\r\n"

  predicate OneLine(s: string) {
    forall i :: 0 <= i < |s| ==> !EndsLine(s[i])
  }

  lemma {:induction false} OneLinePlainly(s: string)
    ensures OneLine(s) <==> '\r' !in s && '\n' !in s
  {
    if '\r' !in s && '\n' !in s {
      forall i | 0 <= i < |s| ensures !EndsLine(s[i]) {
        assert s[i] in s;
      }
    }
  }

  function Prefix(lines: seq<string>): string {
    if lines == [] then "" else lines[0] + CRLF + Prefix(lines[1..])
  }

  /** Lines printed one after the other are skipped one after the other. */
  lemma {:induction false} SkipLines(lines: seq<string>, rest: string)
    requires forall i :: 0 <= i < |lines| ==> OneLine(lines[i])
    ensures AfterLines(Prefix(lines) + rest, |lines|) == Some(rest)
    decreases |lines|
  {
    hide HasLine, AfterLine;
    if lines == [] {
      assert Prefix(lines) + rest == rest;
    } else {
      var more := Prefix(lines[1..]) + rest;
      assert Prefix(lines) + rest == lines[0] + CRLF + more;
      LineRead(lines[0], more);
      SkipLines(lines[1..], rest);
    }
  }

  ghost predicate PlainLines(lines: seq<string>) {
    forall i :: 0 <= i < |lines| ==> '\r' !in lines[i] && '\n' !in lines[i]
  }

  lemma {:induction false} SkipPlainLines(lines: seq<string>, rest: string)
    requires PlainLines(lines)
    ensures AfterLines(Prefix(lines) + rest, |lines|) == Some(rest)
  {
    forall i | 0 <= i < |lines| ensures OneLine(lines[i]) {
      OneLinePlainly(lines[i]);
    }
    SkipLines(lines, rest);
  }

  lemma {:induction false} TwoLines(a: string, b: string)
    ensures |Prefix([a, b])| == |a| + |b| + 4
  {
    assert [a, b][1..] == [b] && [b][1..] == [];
    assert Prefix([b]) == b + CRLF + Prefix([]);
  }

  lemma {:induction false} ThreeLines(a: string, b: string, c: string)
    ensures |Prefix([a, b, c])| == |a| + |b| + |c| + 6
  {
    assert [a, b, c][1..] == [b, c];
    TwoLines(b, c);
  }

  lemma {:induction false} FiveLines(a: string, b: string, c: string, d: string, e: string)
    ensures |Prefix([a, b, c, d, e])| == |a| + |b| + |c| + |d| + |e| + 10
  {
    assert [a, b, c, d, e][1..] == [b, c, d, e] && [b, c, d, e][1..] == [c, d, e];
    assert Prefix([b, c, d, e]) == b + CRLF + Prefix([c, d, e]);
    ThreeLines(c, d, e);
  }

  lemma {:induction false} FiveLinesText(a: string, b: string, c: string, d: string, e: string)
    ensures Prefix([a, b, c, d, e]) == a + "\r\n" + (b + "\r\n") + (c + "\r\n") + (d + "\r\n") + (e + "\r\n")
  {
    assert [a, b, c, d, e][1..] == [b, c, d, e] && [b, c, d, e][1..] == [c, d, e] && [c, d, e][1..] == [d, e];
    assert [d, e][1..] == [e] && [e][1..] == [];
    assert Prefix([e]) == e + CRLF + Prefix([]) == e + CRLF;
    assert Prefix([d, e]) == d + CRLF + (e + CRLF);
    assert Prefix([c, d, e]) == c + CRLF + Prefix([d, e]);
    assert Prefix([b, c, d, e]) == b + CRLF + Prefix([c, d, e]);
  }

  // ---- The request ----

  const AGENT := "User-Agent: Mozilla/4.0 " + "(compatible; MSIE5.01; " + "Windows NT)"
  const HOST := "Host: www.tutorialspoint.com"
  const LANGUAGE := "Accept-Language: en-us"
  const ENCODING := "Accept-Encoding: gzip, deflate"
  const CONNECTION := "Connection: Keep-Alive"
  const REQUEST_LINES := [AGENT, HOST, LANGUAGE, ENCODING, CONNECTION]

  function RequestLine(page: string): string {
    "GET /" + page + " HTTP/1.1"
  }

  /** The request has no empty line at its end, but the NUL that ends the buffer is sent with it. */
  function PrintRequest(page: string): string {
    RequestLine(page) + CRLF + Prefix(REQUEST_LINES)
  }

  /** The buffer of `get`, and the longest page name whose request fits it together with the NUL. */
  const MSG_SIZE := 10000
  const LONGEST_PAGE := 9813

  /** What `get` puts on the wire for a page; None where the print overruns its buffer. */
  function Asked(page: string): Option<string> {
    if |PrintRequest(page)| + 1 <= MSG_SIZE then Some(PrintRequest(page) + [NUL]) else None
  }

  /** The page names that can be asked for. */
  predicate Askable(page: string) {
    OneLine(page) && NUL !in page && |page| <= LONGEST_PAGE
  }

  lemma {:induction false} AskablePlainly(page: string)
    ensures Askable(page) <==> '\r' !in page && '\n' !in page && '\0' !in page && |page| <= 9813
  {
    OneLinePlainly(page);
  }

  lemma {:induction false} RequestFits(page: string)
    ensures Asked(page).Some? <==> |page| <= LONGEST_PAGE == 9813
  {
    FiveLines(AGENT, HOST, LANGUAGE, ENCODING, CONNECTION);
    assert |AGENT| == 58;
  }

  /** What is sent, letter by letter. */
  lemma {:induction false} RequestPlainly(page: string)
    ensures PrintRequest(page) ==
            "GET /" + page + " HTTP/1.1" + "\r\n"
            + ("User-Agent: Mozilla/4.0 " + "(compatible; MSIE5.01; " + "Windows NT)" + "\r\n"
               + ("Host: www.tutorialspoint.com" + "\r\n")
               + ("Accept-Language: en-us" + "\r\n")
               + ("Accept-Encoding: gzip, deflate" + "\r\n")
               + ("Connection: Keep-Alive" + "\r\n"))
    ensures Asked(page) == if |page| <= 9813 then Some(PrintRequest(page) + "\0") else None
  {
    hide Prefix;
    FiveLinesText(AGENT, HOST, LANGUAGE, ENCODING, CONNECTION);
    RequestFits(page);
  }

  datatype Request = Named(path: string, rest: string) | BadRequest | NoRequest

  /** What `recv_get` takes a stream for; NoRequest where it waits for lines that do not come. */
  function ParseRequest(stream: string, rootDir: string): Request {
    if !HasLine(stream) then NoRequest
    else
      var line := CStr(LineOf(stream));
      if |line| <= 13 then BadRequest
      else
        var rest := AfterLines(AfterLine(stream), 5);
        if rest == None then NoRequest else Named(rootDir + line[4..|line| - 9], rest.value)
  }

  lemma {:induction false} RequestLinesAreLines()
    ensures |REQUEST_LINES| == 5 && forall i :: 0 <= i < 5 ==> OneLine(REQUEST_LINES[i])
  {
    assert OneLine("User-Agent: Mozilla/4.0 ");
    assert OneLine("(compatible; MSIE5.01; ");
    assert OneLine("Windows NT)");
    assert OneLine(AGENT) && OneLine(HOST) && OneLine(LANGUAGE) && OneLine(ENCODING) && OneLine(CONNECTION);
  }

  /** A page name without CR and LF arrives whole, blanks and all, and nothing but the NUL is left over. */
  lemma {:induction false} RequestRoundTrip(page: string, rootDir: string)
    requires OneLine(page) && NUL !in page
    ensures ParseRequest(PrintRequest(page) + [NUL], rootDir) == Named(rootDir + "/" + page, [NUL])
  {
    hide Prefix, RequestLine, AfterLines;
    var line, rest := RequestLine(page), Prefix(REQUEST_LINES) + [NUL];
    assert PrintRequest(page) + [NUL] == line + CRLF + rest;
    RequestLineCut(page);
    LineRead(line, rest);
    CStrWhole(line);
    RequestLinesAreLines();
    SkipLines(REQUEST_LINES, [NUL]);
    assert rootDir + ("/" + page) == rootDir + "/" + page;
  }

  lemma {:induction false} RequestLineCut(page: string)
    ensures var line := RequestLine(page); |line| >= 14 && line[4..|line| - 9] == "/" + page
    ensures OneLine(page) ==> OneLine(RequestLine(page))
    ensures NUL !in page ==> NUL !in RequestLine(page)
  {
  }

  /** A page name with a CR or LF is cut short there. */
  lemma {:induction false} RequestCutShort(page: string, rootDir: string)
    requires !OneLine(page) && NUL !in page
    ensures ParseRequest(PrintRequest(page) + [NUL], rootDir) != Named(rootDir + "/" + page, [NUL])
  {
    hide Prefix, AfterLines, AfterLine;
    var stream := PrintRequest(page) + [NUL];
    var n := 5 + LineEnd(page);
    var i :| 0 <= i < |page| && EndsLine(page[i]);
    assert LineEnd(page) < |page|;
    assert stream[..5] == "GET /";
    assert forall k :: 0 <= k < |page| ==> stream[5 + k] == page[k];
    assert EndsLine(stream[n]);
    assert LineEnd(stream) <= n;
    var line := CStr(LineOf(stream));
    if |line| > 13 {
      assert |rootDir + line[4..|line| - 9]| < |rootDir + "/" + page|;
    }
  }

  /** What the server makes of any first line that is followed by five others: `text` is the line up to a NUL. */
  lemma {:induction false} RequestReadPlainly(text: string, junk: string, lines: seq<string>, rest: string,
                                              rootDir: string)
    requires '\0' !in text && (junk == "" || junk[0] == '\0')
    requires '\r' !in text && '\n' !in text && '\r' !in junk && '\n' !in junk
    requires |lines| == 5 && PlainLines(lines)
    ensures ParseRequest(text + junk + "\r\n" + (Prefix(lines) + rest), rootDir) ==
            if |text| <= 13 then BadRequest else Named(rootDir + text[4..|text| - 9], rest)
  {
    hide Prefix, AfterLines;
    var line, more := text + junk, Prefix(lines) + rest;
    CStrPlainly(text, junk);
    OneLinePlainly(line);
    LineRead(line, more);
    SkipPlainLines(lines, rest);
  }

  /** A page arrives under its own name, with nothing but the NUL left over. */
  ghost predicate Arrives(page: string, rootDir: string) {
    && Asked(page).Some?
    && ParseRequest(Asked(page).value, rootDir) == Named(rootDir + "/" + page, [NUL])
  }

  lemma {:induction false} RequestArrivesExactly(page: string, rootDir: string)
    requires '\0' !in page
    ensures Arrives(page, rootDir) <==> '\r' !in page && '\n' !in page && |page| <= 9813
  {
    OneLinePlainly(page);
    hide OneLine, ParseRequest, PrintRequest;
    RequestFits(page);
    if OneLine(page) {
      RequestRoundTrip(page, rootDir);
    } else {
      RequestCutShort(page, rootDir);
    }
  }

  /** `get`, from the printing of the request on. None stands for overrunning `msg`. */
  method SendRequest(sock: Socket, page: string) returns (status: Option<int>)
    requires NUL !in page
    modifies sock`sent, sock`failedWrites
    ensures status == None <==> |page| > 9813
    ensures status == None ==> sock.sent == old(sock.sent)
    ensures status.Some? ==>
              && status.value <= 0 && Asked(page).Some?
              && sock.failedWrites == old(sock.failedWrites) + (if status.value < 0 then 1 else 0)
              && old(sock.sent) <= sock.sent <= old(sock.sent) + Asked(page).value
              && (status.value == 0 ==> sock.sent == old(sock.sent) + Asked(page).value)
  {
    RequestFits(page);
    var text := PrintRequest(page);
    if |text| + 1 > MSG_SIZE {
      return None;
    }
    var result := SocketWrite(sock, text + [NUL], |text| + 1);
    status := Some(result);
  }

  method RecvGet(sock: Socket, rootDir: string) returns (request: Request)
    modifies sock`incoming
    ensures request == ParseRequest(old(sock.incoming), rootDir)
    ensures request.Named? ==> request.rest == sock.incoming
    ensures request.BadRequest? ==> sock.incoming == AfterLine(old(sock.incoming))
  {
    hide AfterLines, AfterLine, HasLine;
    var line := InputStringFd(sock, 10);
    if line == None {
      return NoRequest;
    }
    var text := CStr(line.value);
    var length := |text|;
    if length <= 13 {
      return BadRequest;
    }
    var name := text[4..length - 9];
    var done := ConsumeLines(sock, 5);
    if !done {
      return NoRequest;
    }
    return Named(rootDir + name, sock.incoming);
  }

  // ---- The answer ----

  /** What the server finds under a path. */
  datatype File = Absent | Unreadable | Unopenable | Readable(content: string)

  const NOT_FOUND := "<html>Sorry dude, couldn't find this file.</html>"
  const FORBIDDEN := "<html>Trying to access this file but don't think I can make it.</html>"

  function Code(file: File): nat {
    match file
    case Absent => 404
    case Unreadable => 403
    case Unopenable => 404
    case Readable(_) => 200
  }

  function Status(file: File): string {
    match file
    case Absent => "404 Not Found"
    case Unreadable => "403 Forbidden"
    case Unopenable => "404 Not Found"
    case Readable(_) => "200 OK"
  }

  /** The text sent: a file's characters up to its first NUL. */
  function Message(file: File): string {
    match file
    case Absent => NOT_FOUND
    case Unreadable => FORBIDDEN
    case Unopenable => NOT_FOUND
    case Readable(content) => CStr(content)
  }

  const SERVER_LINE := "Server: myhttpd/1.0.0 (Ubuntu64)"
  const TYPE_LINE := "Content-Type: text/html"
  const CLOSED_LINE := "Connection: Closed"
  const LENGTH_NAME := "Content-Length: "

  function StatusLine(file: File): string {
    "HTTP/1.1 " + Status(file)
  }

  function DateLine(date: string): string {
    "Date: " + date
  }

  function LengthLine(length: int): string {
    LENGTH_NAME + PrintInt(length)
  }

  function Header(file: File, date: string): string {
    StatusLine(file) + CRLF + Prefix([DateLine(date), SERVER_LINE])
    + LengthLine(ToInt(|Message(file)|)) + CRLF + Prefix([TYPE_LINE, CLOSED_LINE, ""])
  }

  /** What is written of a text, told its length as an int; nothing can be written of a negative length. */
  function Written(message: string): string {
    if ToInt(|message|) >= 0 then message[..ToInt(|message|)] else ""
  }

  function PrintAnswer(file: File, date: string): string {
    Header(file, date) + Written(Message(file))
  }

  datatype Answer =
    | Got(code: int, content: string, rest: string)
    | BadAnswer     // too short a line or another code: the process ends
    | NoAnswer      // waiting for what does not come
    | OutOfBounds   // a length line without a length, or a length to which one cannot be added, or a negative one

  /** What `readAnswerFromServer` takes a stream for. */
  function ParseAnswer(stream: string): Answer {
    if !HasLine(stream) then NoAnswer
    else
      var line := CStr(LineOf(stream));
      if |line| < 15 then BadAnswer
      else
        var code := Atoi(line[9..12]);
        if code != 404 && code != 403 && code != 200 then BadAnswer
        else ParseBody(code, AfterLine(stream))
  }

  function ParseBody(code: int, stream: string): Answer {
    var atLength := AfterLines(stream, 2);
    if atLength == None || !HasLine(atLength.value) then NoAnswer
    else
      var lengthLine := LineOf(atLength.value);
      if |lengthLine| < 16 then OutOfBounds
      else
        var contentSize := Atoi(CStr(lengthLine[16..]));
        var atContent := AfterLines(AfterLine(atLength.value), 3);
        if atContent == None then NoAnswer
        else if contentSize < 0 || contentSize >= INT_MAX then OutOfBounds
        else if |atContent.value| < contentSize then NoAnswer
        else Got(code, atContent.value[..contentSize], atContent.value[contentSize..])
  }

  lemma {:induction false} StatusBegins(file: File)
    ensures OneLine(Status(file)) && NUL !in Status(file) && |Status(file)| >= 6
    ensures var d := Status(file);
            && IsDigit(d[0]) && IsDigit(d[1]) && IsDigit(d[2])
            && 100 * ValueOf(d[0]) + 10 * ValueOf(d[1]) + ValueOf(d[2]) == Code(file)
  {
  }

  lemma {:induction false} CodeRead(file: File)
    ensures |StatusLine(file)| >= 15 && OneLine(StatusLine(file)) && NUL !in StatusLine(file)
    ensures Atoi(StatusLine(file)[9..12]) == Code(file)
  {
    hide Status, Code, Atoi, ValueOf;
    StatusBegins(file);
    assert OneLine("HTTP/1.1 ");
    ThreeDigits(StatusLine(file)[9..12]);
  }

  lemma {:induction false} ThreeDigits(s: string)
    requires |s| == 3 && IsDigit(s[0]) && IsDigit(s[1]) && IsDigit(s[2])
    ensures Atoi(s) == 100 * ValueOf(s[0]) + 10 * ValueOf(s[1]) + ValueOf(s[2])
  {
    var a, b, c := ValueOf(s[0]), ValueOf(s[1]), ValueOf(s[2]);
    assert s[1..][1..] == s[2..] && s[2..][1..] == "";
    assert AfterDigits(10 * a + b, s[2..]) == AfterDigits(10 * (10 * a + b) + c, "");
    assert AfterDigits(10 * 0 + a, s[1..]) == AfterDigits(10 * a + b, s[2..]);
    assert Atoi(s) == AfterDigits(10 * 0 + a, s[1..]);
  }

  lemma {:induction false} LengthRead(length: int)
    ensures |LengthLine(length)| >= 16 && OneLine(LengthLine(length))
    ensures Atoi(CStr(LengthLine(length)[16..])) == length
  {
    var printed := PrintInt(length);
    assert OneLine(LENGTH_NAME) && OneLine(printed);
    assert LengthLine(length)[16..] == printed;
    CStrWhole(printed);
    AtoiPrintInt(length);
  }

  /** What is taken of a stream as the text, after a length has been announced. */
  function Body(code: int, length: int, stream: string): Answer {
    if length < 0 || length >= INT_MAX then OutOfBounds
    else if |stream| < length then NoAnswer
    else Got(code, stream[..length], stream[length..])
  }

  lemma {:induction false} BodyRead(code: int, date: string, length: int, stream: string)
    requires OneLine(date)
    ensures ParseBody(code, Prefix([DateLine(date), SERVER_LINE]) + LengthLine(length) + CRLF
                            + Prefix([TYPE_LINE, CLOSED_LINE, ""]) + stream) == Body(code, length, stream)
  {
    hide Prefix, LengthLine, AfterLines;
    var above, below := [DateLine(date), SERVER_LINE], [TYPE_LINE, CLOSED_LINE, ""];
    var line, tail := LengthLine(length), Prefix(below) + stream;
    assert OneLine(DateLine(date)) && OneLine(SERVER_LINE) && OneLine(TYPE_LINE) && OneLine(CLOSED_LINE);
    assert Prefix(above) + line + CRLF + Prefix(below) + stream == Prefix(above) + (line + CRLF + tail);
    SkipLines(above, line + CRLF + tail);
    LengthRead(length);
    LineRead(line, tail);
    SkipLines(below, stream);
  }

  /** Whatever the file, what the crawler makes of the answer: as much of the text as has been announced. */
  lemma {:induction false} AnswerRead(file: File, date: string, rest: string)
    requires OneLine(date)
    ensures var length := ToInt(|Message(file)|);
            ParseAnswer(PrintAnswer(file, date) + rest) ==
            if 0 <= length < INT_MAX then Got(Code(file), Message(file)[..length], rest) else OutOfBounds
  {
    hide Prefix, LengthLine, StatusLine, Message, ParseBody, ToInt;
    var line, message, text := StatusLine(file), Message(file), Written(Message(file));
    var tail := Prefix([DateLine(date), SERVER_LINE]) + LengthLine(ToInt(|message|)) + CRLF
                + Prefix([TYPE_LINE, CLOSED_LINE, ""]) + (text + rest);
    assert PrintAnswer(file, date) + rest == line + CRLF + tail;
    CodeRead(file);
    LineRead(line, tail);
    CStrWhole(line);
    BodyRead(Code(file), date, ToInt(|message|), text + rest);
    assert (text + rest)[..|text|] == text && (text + rest)[|text|..] == rest;
  }

  /** The crawler reads back the code and the text the server printed, and not a character more, exactly if the length
      of the text is an int to which one can be added. */
  lemma {:induction false} AnswerArrivesExactly(file: File, date: string, rest: string)
    requires OneLine(date)
    ensures ParseAnswer(PrintAnswer(file, date) + rest) == Got(Code(file), Message(file), rest)
            <==> |Message(file)| < INT_MAX
  {
    hide ParseAnswer, PrintAnswer, Message;
    AnswerRead(file, date, rest);
    assert Message(file)[..|Message(file)|] == Message(file);
  }

  /** What is served for a file, letter by letter: its own text up to a NUL, or a text of regret. */
  ghost predicate Serves(file: File, code: int, status: string, text: string) {
    match file
    case Readable(content) =>
      code == 200 && status == "200 OK" && '\0' !in text && (content == text || text + "\0" <= content)
    case Unreadable =>
      code == 403 && status == "403 Forbidden"
      && text == "<html>Trying to access this file but don't think I can make it.</html>"
    case _ =>
      code == 404 && status == "404 Not Found" && text == "<html>Sorry dude, couldn't find this file.</html>"
  }

  lemma {:induction false} ServesExactly(file: File, code: int, status: string, text: string)
    ensures Serves(file, code, status, text) <==> code == Code(file) && status == Status(file) && text == Message(file)
  {
    if file.Readable? {
      var content := file.content;
      if Serves(file, code, status, text) {
        assert content == text + content[|text|..];
        CStrPlainly(text, content[|text|..]);
      }
      var whole := CStr(content);
      assert content == whole || whole + "\0" <= content;
    }
  }

  lemma {:induction false} TwoLinesText(a: string, b: string)
    ensures Prefix([a, b]) == a + "\r\n" + (b + "\r\n")
  {
    assert [a, b][1..] == [b] && [b][1..] == [];
    assert Prefix([b]) == b + CRLF + Prefix([]) == b + CRLF;
  }

  lemma {:induction false} ThreeLinesText(a: string, b: string, c: string)
    ensures Prefix([a, b, c]) == a + "\r\n" + (b + "\r\n" + (c + "\r\n"))
  {
    assert [a, b, c][1..] == [b, c];
    TwoLinesText(b, c);
  }

  /** The whole answer, letter by letter. */
  lemma {:induction false} AnswerPlainly(file: File, date: string, code: int, status: string, text: string)
    requires Serves(file, code, status, text) && |text| <= INT_MAX
    ensures PrintAnswer(file, date) ==
            "HTTP/1.1 " + status + "\r\n"
            + ("Date: " + date + "\r\n" + ("Server: myhttpd/1.0.0 (Ubuntu64)" + "\r\n"))
            + ("Content-Length: " + Decimal(|text|)) + "\r\n"
            + ("Content-Type: text/html" + "\r\n" + ("Connection: Closed" + "\r\n" + ("" + "\r\n")))
            + text
  {
    hide Prefix, Message, Status, Code, Serves;
    ServesExactly(file, code, status, text);
    TwoLinesText(DateLine(date), SERVER_LINE);
    ThreeLinesText(TYPE_LINE, CLOSED_LINE, "");
    assert text[..|text|] == text;
  }

  /** The crawler gets just the code and the text served. */
  lemma {:induction false} AnswerArrivesPlainly(file: File, date: string, code: int, status: string, text: string,
                                                rest: string)
    requires Serves(file, code, status, text) && |text| < INT_MAX && '\r' !in date && '\n' !in date
    ensures ParseAnswer(PrintAnswer(file, date) + rest) == Got(code, text, rest)
  {
    hide ParseAnswer, PrintAnswer, Message, Code, Serves;
    OneLinePlainly(date);
    ServesExactly(file, code, status, text);
    AnswerArrivesExactly(file, date, rest);
  }

  /** A file without NULs arrives as it is. */
  lemma {:induction false} FileArrives(content: string, date: string)
    requires '\0' !in content && |content| < INT_MAX && '\r' !in date && '\n' !in date
    ensures ParseAnswer(PrintAnswer(Readable(content), date)) == Got(200, content, "")
  {
    hide ParseAnswer, PrintAnswer;
    var file := Readable(content);
    AnswerArrivesPlainly(file, date, 200, "200 OK", content, "");
    assert PrintAnswer(file, date) + "" == PrintAnswer(file, date);
  }

  lemma {:induction false} BodyReadPlainly(code: int, above: seq<string>, lengthLine: string, below: seq<string>,
                                           stream: string)
    requires |above| == 2 && |below| == 3 && PlainLines(above) && PlainLines(below)
    requires '\0' !in lengthLine && '\r' !in lengthLine && '\n' !in lengthLine
    ensures ParseBody(code, Prefix(above) + (lengthLine + "\r\n" + (Prefix(below) + stream))) ==
            if |lengthLine| >= 16 then Body(code, Atoi(lengthLine[16..]), stream) else OutOfBounds
  {
    hide Prefix, AfterLines, Atoi, PlainLines;
    var tail := Prefix(below) + stream;
    SkipPlainLines(above, lengthLine + "\r\n" + tail);
    OneLinePlainly(lengthLine);
    LineRead(lengthLine, tail);
    if |lengthLine| >= 16 {
      CStrWhole(lengthLine[16..]);
    }
    SkipPlainLines(below, stream);
  }

  /** What the crawler makes of any answer that comes in the expected lines. */
  lemma {:induction false} AnswerReadPlainly(line: string, above: seq<string>, lengthLine: string, below: seq<string>,
                                             stream: string)
    requires '\0' !in line && '\r' !in line && '\n' !in line
    requires |above| == 2 && |below| == 3 && PlainLines(above) && PlainLines(below)
    requires '\0' !in lengthLine && '\r' !in lengthLine && '\n' !in lengthLine
    ensures ParseAnswer(line) == NoAnswer
    ensures var code := if |line| >= 15 then Atoi(line[9..12]) else 0;
            var n := if |lengthLine| >= 16 then Atoi(lengthLine[16..]) else -1;
            ParseAnswer(line + "\r\n" + (Prefix(above) + (lengthLine + "\r\n" + (Prefix(below) + stream)))) ==
            if code != 404 && code != 403 && code != 200 then BadAnswer
            else if n < 0 || n >= INT_MAX then OutOfBounds
            else if |stream| < n then NoAnswer
            else Got(code, stream[..n], stream[n..])
  {
    hide Prefix, ParseBody, Atoi, PlainLines;
    var more := Prefix(above) + (lengthLine + "\r\n" + (Prefix(below) + stream));
    LinesPlainly(line, '\n', "", 0);
    OneLinePlainly(line);
    LineRead(line, more);
    CStrWhole(line);
    if |line| >= 15 {
      BodyReadPlainly(Atoi(line[9..12]), above, lengthLine, below, stream);
    }
  }

  /** The crawler gets as many bytes of a file as the file has exactly if it has no NUL and is not too long. */
  lemma {:induction false} FileArrivesWhole(content: string, date: string)
    requires OneLine(date)
    ensures var answer := ParseAnswer(PrintAnswer(Readable(content), date));
            answer.Got? && |answer.content| == |content| <==> NUL !in content && |content| < INT_MAX
  {
    hide ParseAnswer, PrintAnswer;
    var file := Readable(content);
    assert PrintAnswer(file, date) + "" == PrintAnswer(file, date);
    AnswerRead(file, date, "");
    if NUL !in content {
      CStrWhole(content);
    }
  }

  /** The bytes the crawler counts for a file are those the server counts, which casts the size of the file to an int,
      exactly if the size is an int after the cast to which one can be added, and what follows the first NUL is a
      multiple of four gigabytes. */
  lemma {:induction false} BytesAgreeExactly(content: string, date: string)
    requires OneLine(date)
    ensures var answer := ParseAnswer(PrintAnswer(Readable(content), date));
            answer.Got? && |answer.content| == ToInt(|content|) <==>
            0 <= ToInt(|content|) < INT_MAX && (|content| - |CStr(content)|) % 0x1_0000_0000 == 0
  {
    hide ParseAnswer, PrintAnswer;
    var file := Readable(content);
    assert PrintAnswer(file, date) + "" == PrintAnswer(file, date);
    AnswerRead(file, date, "");
    ToIntAgrees(|content|, |CStr(content)|);
  }

  lemma {:induction false} ToIntAgrees(a: nat, b: nat)
    ensures ToInt(a) == ToInt(b) <==> (a - b) % 0x1_0000_0000 == 0
  {
    hide ToInt;
    var j, k := (a - ToInt(a)) / 0x1_0000_0000, (b - ToInt(b)) / 0x1_0000_0000;
    assert a - ToInt(a) == 0x1_0000_0000 * j && b - ToInt(b) == 0x1_0000_0000 * k;
    var d := (a - b) / 0x1_0000_0000;
    assert a - b == 0x1_0000_0000 * d + (a - b) % 0x1_0000_0000;
    assert ToInt(a) - ToInt(b) == 0x1_0000_0000 * (d - j + k) + (a - b) % 0x1_0000_0000;
  }

  /** The header always fits the ten thousand characters it is printed into. */
  lemma {:induction false} HeaderFits(file: File, date: string)
    requires |date| < 80
    ensures |Header(file, date)| + 1 <= MSG_SIZE
  {
    hide Message, ToInt, Prefix, PrintInt;
    IntIsShort(ToInt(|Message(file)|));
    assert |Status(file)| <= 13;
    TwoLines(DateLine(date), SERVER_LINE);
    ThreeLines(TYPE_LINE, CLOSED_LINE, "");
  }

  /** `getRequest` once the path is known: statistics for a file that could be read, then the answer in two writes. */
  method SendAnswer(sock: Socket, queue: Queue, file: File, date: string) returns (status: int)
    requires queue.Valid() && NUL !in date && |date| < 80
    modifies sock`sent, sock`failedWrites, queue
    ensures queue.Valid() && queue.View() == old(queue.View())
    ensures queue.pagesServed == old(queue.pagesServed) + (if file.Readable? then 1 else 0)
    ensures queue.bytesReturned == old(queue.bytesReturned) + (if file.Readable? then ToInt(|file.content|) else 0)
    ensures status <= 0 && sock.failedWrites == old(sock.failedWrites) + if status < 0 then 1 else 0
    ensures old(sock.sent) <= sock.sent <= old(sock.sent) + PrintAnswer(file, date)
    ensures status == 0 ==> sock.sent == old(sock.sent) + PrintAnswer(file, date)
  {
    hide Header, Message;
    var msg := Message(file);
    if file.Readable? {
      queue.Serve();
      queue.AddBytes(ToInt(|file.content|));
    }
    var buf := Header(file, date);
    HeaderFits(file, date);
    assert |buf| + 1 <= MSG_SIZE;
    status := SocketWrite(sock, buf, |buf|);
    if status < 0 {
      return status;
    }
    status := SocketWrite(sock, msg, ToInt(|msg|));
  }

  /** `readAnswerFromServer`. None stands for an error of a read. */
  method ReadAnswer(sock: Socket) returns (answer: Option<Answer>)
    modifies sock`incoming, sock`failedReads
    ensures sock.failedReads == old(sock.failedReads) + if answer == None then 1 else 0
    ensures answer.Some? ==> answer.value == ParseAnswer(old(sock.incoming))
    ensures answer.Some? && answer.value.Got? ==> answer.value.rest == sock.incoming
  {
    hide AfterLine, HasLine, ParseBody;
    var line := InputStringFd(sock, 15);
    if line == None {
      return Some(NoAnswer);
    }
    var text := CStr(line.value);
    if |text| < 15 {
      return Some(BadAnswer);
    }
    var code := Atoi(text[9..12]);
    if code != 404 && code != 403 && code != 200 {
      return Some(BadAnswer);
    }
    answer := ReadBody(sock, code);
  }

  method ReadBody(sock: Socket, code: int) returns (answer: Option<Answer>)
    modifies sock`incoming, sock`failedReads
    ensures sock.failedReads == old(sock.failedReads) + if answer == None then 1 else 0
    ensures answer.Some? ==> answer.value == ParseBody(code, old(sock.incoming))
    ensures answer.Some? && answer.value.Got? ==> answer.value.rest == sock.incoming
  {
    hide AfterLines, AfterLine, HasLine;
    var done := ConsumeLines(sock, 2);
    if !done {
      return Some(NoAnswer);
    }
    var lengthLine := InputStringFd(sock, 10);
    if lengthLine == None {
      return Some(NoAnswer);
    }
    if |lengthLine.value| < 16 {
      return Some(OutOfBounds);
    }
    var contentSize := Atoi(CStr(lengthLine.value[16..]));
    done := ConsumeLines(sock, 3);
    if !done {
      return Some(NoAnswer);
    }
    if contentSize < 0 || contentSize >= INT_MAX {
      return Some(OutOfBounds);
    }
    var status, content := SocketRead(sock, contentSize);
    match status {
      case Failed => return None;
      case Stalled => return Some(NoAnswer);
      case Done =>
        return Some(Got(code, content, sock.incoming));
    }
  }

  // ---- The two ends together ----

  /** A page that is asked for and answered: the server looks under the path meant, and the crawler gets what is
      there, up to a NUL. */
  lemma {:induction false} FetchRoundTrip(page: string, rootDir: string, files: string -> File, date: string)
    requires Askable(page) && OneLine(date)
    requires |Message(files(rootDir + "/" + page))| < INT_MAX
    ensures Asked(page).Some?
    ensures var request := ParseRequest(Asked(page).value, rootDir);
            && request.Named?
            && var file := files(request.path);
               && file == files(rootDir + "/" + page)
               && ParseAnswer(PrintAnswer(file, date)) == Got(Code(file), Message(file), "")
  {
    hide ParseRequest, ParseAnswer, PrintAnswer, PrintRequest;
    RequestFits(page);
    RequestRoundTrip(page, rootDir);
    var file := files(rootDir + "/" + page);
    AnswerArrivesExactly(file, date, "");
    assert PrintAnswer(file, date) + "" == PrintAnswer(file, date);
  }
}
