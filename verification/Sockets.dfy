/** Byte streams that come and go in pieces, and the reads and writes built on them. */
module Sockets {
  import opened Wrappers
  import opened CText

  /** One end of a connection: what has been written to it, what has yet to be read from it, and how many writes and
      reads of many characters have failed. */
  class Socket {
    var sent: string
    var incoming: string
    ghost var failedWrites: nat
    ghost var failedReads: nat

    constructor (incoming: string)
      ensures sent == "" && this.incoming == incoming && failedWrites == failedReads == 0
    {
      sent, this.incoming := "", incoming;
      failedWrites, failedReads := 0, 0;
    }

    /** write: fails, as it must for a negative length, or takes a piece from the front of what is given, not an empty
        one unless nothing is. */
    method Write(data: string, len: int) returns (count: int)
      requires len <= |data|
      modifies this`sent, this`failedWrites
      ensures failedWrites == old(failedWrites) + if count < 0 then 1 else 0
      ensures len < 0 ==> count < 0
      ensures count < 0 ==> sent == old(sent)
      ensures count >= 0 ==> count <= len && sent == old(sent) + data[..count] && (count == 0 ==> len == 0)
    {
      count :| count <= len && (count == 0 ==> len == 0);
      if count >= 0 {
        sent := sent + data[..count];
      } else {
        failedWrites := failedWrites + 1;
      }
    }

    /** read: fails, or gives a piece of at most `len`, an empty one only if nothing is asked for or left. */
    method Read(len: nat) returns (count: int, data: string)
      modifies this`incoming, this`failedReads
      ensures failedReads == old(failedReads) + if count < 0 then 1 else 0
      ensures count >= 0 ==> |data| == count <= len && old(incoming) == data + incoming
      ensures count == 0 ==> len == 0 || incoming == ""
      ensures count < 0 ==> incoming == old(incoming)
    {
      count :| count <= len && count <= |incoming| && (count == 0 ==> len == 0 || incoming == "");
      data := "";
      if count >= 0 {
        data, incoming := incoming[..count], incoming[count..];
      } else {
        failedReads := failedReads + 1;
      }
    }

    /** `while (read(fd, &ch, 1) != 1);` which spins for ever when nothing more comes. */
    method NextByte() returns (ch: Option<char>)
      modifies this`incoming
      ensures old(incoming) == "" ==> ch == None && incoming == ""
      ensures old(incoming) != "" ==> ch == Some(old(incoming)[0]) && incoming == old(incoming)[1..]
    {
      if incoming == "" {
        return None;
      }
      ch := Some(incoming[0]);
      incoming := incoming[1..];
    }
  }

  /** The first `len` characters of `buf`, in however many pieces; 0, or the error that stopped it. */
  method SocketWrite(sock: Socket, buf: string, len: int) returns (status: int)
    requires len <= |buf|
    modifies sock`sent, sock`failedWrites
    ensures status <= 0
    ensures status == 0 ==> len >= 0 && sock.sent == old(sock.sent) + buf[..len]
    ensures sock.failedWrites == old(sock.failedWrites) + if status < 0 then 1 else 0
    ensures status < 0 ==> exists n :: 0 <= n <= |buf| && (n == 0 || n < len) && sock.sent == old(sock.sent) + buf[..n]
  {
    var at := 0;
    while true
      invariant 0 <= at <= |buf| && sock.sent == old(sock.sent) + buf[..at]
      invariant (at == 0 || at < len) && sock.failedWrites == old(sock.failedWrites)
      decreases len - at, if at == 0 then 1 else 0
    {
      var count := sock.Write(buf[at..], len - at);
      if count < 0 {
        return count;
      }
      assert buf[..at] + buf[at..][..count] == buf[..at + count];
      at := at + count;
      if at >= len {
        return 0;
      }
    }
  }

  datatype ReadStatus = Done | Failed | Stalled

  /** Exactly `len` characters, in however many pieces; stalled when the stream ends before. */
  method SocketRead(sock: Socket, len: nat) returns (status: ReadStatus, content: string)
    modifies sock`incoming, sock`failedReads
    ensures sock.failedReads == old(sock.failedReads) + if status.Failed? then 1 else 0
    ensures old(sock.incoming) == content + sock.incoming
    ensures status.Done? ==> |content| == len
    ensures status.Stalled? ==> |content| < len && sock.incoming == ""
  {
    content := "";
    while true
      invariant |content| <= len && old(sock.incoming) == content + sock.incoming
      invariant (|content| == len ==> len == 0) && sock.failedReads == old(sock.failedReads)
      decreases len - |content|, if |content| == 0 then 1 else 0
    {
      var count, data := sock.Read(len - |content|);
      if count < 0 {
        return Failed, content;
      }
      content := content + data;
      if |content| == len {
        return Done, content;
      }
      if count == 0 {
        return Stalled, content;
      }
    }
  }

  // ---- Lines ----

  predicate EndsLine(c: char) {
    c == '\r' || c == '\n'
  }

  /** Position of the first CR or LF. */
  function LineEnd(s: string): (n: nat)
    ensures n <= |s|
    ensures forall i :: 0 <= i < n ==> !EndsLine(s[i])
    ensures n < |s| ==> EndsLine(s[n])
  {
    if s == "" || EndsLine(s[0]) then 0 else 1 + LineEnd(s[1..])
  }

  predicate HasLine(s: string) {
    LineEnd(s) < |s|
  }

  function LineOf(s: string): string {
    s[..LineEnd(s)]
  }

  /** A CR takes the character after it along, whatever it is. */
  function AfterLine(s: string): string
    requires HasLine(s)
  {
    var n := LineEnd(s);
    if s[n] == '\n' || n + 1 == |s| then s[n + 1..] else s[n + 2..]
  }

  /** The stream after `k` lines, if it has so many. */
  function AfterLines(s: string, k: nat): Option<string> {
    if k == 0 then Some(s) else if HasLine(s) then AfterLines(AfterLine(s), k - 1) else None
  }

  /** In plain terms: a line goes up to the first CR or LF, and a CR takes the next character along. */
  lemma {:induction false} LinesPlainly(line: string, c: char, rest: string, k: nat)
    requires '\r' !in line && '\n' !in line
    ensures !HasLine(line) && AfterLines(line, 0) == Some(line) && AfterLines(line, k + 1) == None
    ensures AfterLines(line + "\n" + rest, k + 1) == AfterLines(line + "\r" + [c] + rest, k + 1) == AfterLines(rest, k)
    ensures var s := line + "\n" + rest; HasLine(s) && LineOf(s) == line && AfterLine(s) == rest
    ensures var s := line + "\r" + [c] + rest; HasLine(s) && LineOf(s) == line && AfterLine(s) == rest
    ensures var s := line + "\r"; HasLine(s) && LineOf(s) == line && AfterLine(s) == ""
  {
    forall i | 0 <= i < |line| ensures !EndsLine(line[i]) {
      assert line[i] in line;
    }
    EndFound(line, "\n" + rest);
    EndFound(line, "\r" + ([c] + rest));
    EndFound(line, "\r");
    assert line + "\n" + rest == line + ("\n" + rest);
    assert line + "\r" + [c] + rest == line + ("\r" + ([c] + rest));
    assert (line + "\r" + [c] + rest)[|line| + 2..] == rest;
  }

  lemma {:induction false} EndFound(line: string, rest: string)
    requires (forall i :: 0 <= i < |line| ==> !EndsLine(line[i])) && rest != "" && EndsLine(rest[0])
    ensures var s := line + rest; LineEnd(s) == |line| && s[..|line|] == line && s[|line|] == rest[0]
  {
    var s := line + rest;
    assert forall i :: 0 <= i < |line| ==> s[i] == line[i];
    assert s[|line|] == rest[0];
  }

  /** A line printed with CR LF is read back as it was. */
  lemma {:induction false} LineRead(line: string, rest: string)
    requires forall i :: 0 <= i < |line| ==> !EndsLine(line[i])
    ensures var s := line + "\r\n" + rest; HasLine(s) && LineOf(s) == line && AfterLine(s) == rest
  {
    var s := line + "\r\n" + rest;
    assert s[|line|] == '\r';
    assert forall i :: 0 <= i < |line| ==> s[i] == line[i];
    assert s[|line| + 2..] == rest;
  }

  /** One line, into a buffer that grows as it fills. None stands for spinning at the end of the stream. */
  method InputStringFd(fd: Socket, size0: nat) returns (line: Option<string>)
    requires size0 > 0
    modifies fd`incoming
    ensures line == if HasLine(old(fd.incoming)) then Some(LineOf(old(fd.incoming))) else None
    ensures line.Some? ==> fd.incoming == AfterLine(old(fd.incoming))
  {
    ghost var s := fd.incoming;
    var size, len := size0, 0;
    var str := new char[size];
    while true
      invariant fresh(str) && len < size == str.Length && len <= |s|
      invariant fd.incoming == s[len..] && str[..len] == s[..len]
      invariant forall i :: 0 <= i < len ==> !EndsLine(s[i])
      decreases |s| - len
    {
      var ch := fd.NextByte();
      if ch == None {
        return None;
      }
      str[len] := ch.value;
      len := len + 1;
      if len == size {
        str := Grow(str, len);
        size := size + 16;
      }
      if EndsLine(ch.value) {
        assert LineEnd(s) == len - 1 && str[..len - 1] == s[..len][..len - 1] == LineOf(s);
        if ch.value == '\r' {
          var skipped := fd.NextByte();
        }
        str[len - 1] := NUL;
        return Some(str[..len - 1]);
      }
    }
  }

  /** `lines` lines thrown away; false stands for spinning at the end of the stream. */
  method ConsumeLines(fd: Socket, lines: nat) returns (done: bool)
    modifies fd`incoming
    ensures done <==> AfterLines(old(fd.incoming), lines).Some?
    ensures done ==> AfterLines(old(fd.incoming), lines) == Some(fd.incoming)
  {
    for i := 0 to lines
      invariant AfterLines(old(fd.incoming), lines) == AfterLines(fd.incoming, lines - i)
    {
      var line := InputStringFd(fd, 10);
      if line == None {
        return false;
      }
    }
    return true;
  }
}
