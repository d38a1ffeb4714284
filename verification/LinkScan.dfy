/** The links of a page, and the loop that finds them while cutting the page up in place. */
module LinkScan {
  import opened CText

  const ANCHOR := "<a href=\""

  /** The link of a line that begins as an anchor: what stands before the closing quote. */
  function LinkOf(line: string): string
    requires ANCHOR <= line
  {
    line[9..][..Find(line[9..], '"')]
  }

  function LineLinks(line: string): seq<string> {
    if ANCHOR <= line then [LinkOf(line)] else []
  }

  /** The links of the lines that a newline ends; text after the last newline does not count. */
  function Links(body: string): seq<string>
    decreases |body|
  {
    var n := Find(body, '\n');
    if n == |body| then [] else LineLinks(body[..n]) + Links(body[n + 1..])
  }

  predicate ClosedLine(line: string) {
    ANCHOR <= line ==> '"' in line[9..]
  }

  /** Every anchor line that a newline ends has its closing quote. */
  predicate Closed(body: string)
    decreases |body|
  {
    var n := Find(body, '\n');
    n < |body| ==> ClosedLine(body[..n]) && Closed(body[n + 1..])
  }

  /** The links up to the first such line that is not closed. */
  function SafeLinks(body: string): (links: seq<string>)
    ensures links <= Links(body)
    decreases |body|
  {
    var n := Find(body, '\n');
    if n == |body| || !ClosedLine(body[..n]) then [] else LineLinks(body[..n]) + SafeLinks(body[n + 1..])
  }

  function ScrubbedLine(line: string): (t: string)
    ensures |t| == |line|
  {
    if ANCHOR <= line && '"' in line[9..] then line[9 + Find(line[9..], '"') := NUL] else line
  }

  /** The page after the scan: a NUL for every newline and for every closing quote, all else as it was. */
  function Scrubbed(body: string): (t: string)
    ensures |t| == |body|
    decreases |body|
  {
    var n := Find(body, '\n');
    if n == |body| then body else ScrubbedLine(body[..n]) + [NUL] + Scrubbed(body[n + 1..])
  }

  // ---- What the links are, line by line ----

  function Joined(lines: seq<string>): string {
    if lines == [] then "" else lines[0] + "\n" + Joined(lines[1..])
  }

  function AllLineLinks(lines: seq<string>): seq<string> {
    if lines == [] then [] else LineLinks(lines[0]) + AllLineLinks(lines[1..])
  }

  lemma {:induction false} FirstLine(line: string, rest: string)
    requires '\n' !in line
    ensures var body := line + "\n" + rest;
            Find(body, '\n') == |line| && body[..|line|] == line && body[|line| + 1..] == rest
  {
    FindIs(line + "\n" + rest, '\n', |line|);
  }

  /** The links of a page are those of its lines, in order; what follows the last newline gives none. */
  lemma {:induction false} LinksOfLines(lines: seq<string>, tail: string)
    requires (forall i :: 0 <= i < |lines| ==> '\n' !in lines[i]) && '\n' !in tail
    ensures Links(Joined(lines) + tail) == AllLineLinks(lines)
    decreases |lines|
  {
    hide LineLinks, Find;
    if lines == [] {
      assert Joined(lines) + tail == tail;
    } else {
      var rest := Joined(lines[1..]) + tail;
      assert Joined(lines) + tail == lines[0] + "\n" + rest;
      FirstLine(lines[0], rest);
      LinksOfLines(lines[1..], tail);
    }
  }

  /** A page is closed exactly if each of its lines is; what follows the last newline does not matter. */
  lemma {:induction false} ClosedOfLines(lines: seq<string>, tail: string)
    requires (forall i :: 0 <= i < |lines| ==> '\n' !in lines[i]) && '\n' !in tail
    ensures Closed(Joined(lines) + tail) <==> forall i :: 0 <= i < |lines| ==> ClosedLine(lines[i])
    decreases |lines|
  {
    hide ClosedLine, Find;
    if lines == [] {
      assert Joined(lines) + tail == tail;
    } else {
      var rest := Joined(lines[1..]) + tail;
      assert Joined(lines) + tail == lines[0] + "\n" + rest;
      FirstLine(lines[0], rest);
      ClosedOfLines(lines[1..], tail);
      assert Closed(lines[0] + "\n" + rest) <==> ClosedLine(lines[0]) && Closed(rest);
      assert forall i :: 0 <= i < |lines| - 1 ==> lines[1..][i] == lines[i + 1];
      assert lines == [lines[0]] + lines[1..];
    }
  }

  /** In plain terms: text after the last newline gives nothing and stays. */
  lemma {:induction false} LastTextPlainly(tail: string)
    requires '\n' !in tail
    ensures Links(tail) == SafeLinks(tail) == [] && Scrubbed(tail) == tail && Closed(tail)
  {
    FindIs(tail, '\n', |tail|);
  }

  /** A line that does not begin as an anchor gives nothing, and only its newline goes. */
  lemma {:induction false} OtherLinePlainly(line: string, rest: string)
    requires '\n' !in line && !("<a href=\"" <= line)
    ensures var body := line + "\n" + rest;
            && Links(body) == Links(rest)
            && SafeLinks(body) == SafeLinks(rest)
            && Scrubbed(body) == line + "\0" + Scrubbed(rest)
            && (Closed(body) <==> Closed(rest))
  {
    hide Find, LineLinks, ScrubbedLine, ClosedLine;
    OtherGivesNothing(line);
    FirstLine(line, rest);
    assert [] + Links(rest) == Links(rest) && [] + SafeLinks(rest) == SafeLinks(rest);
  }

  /** An anchor line gives the text up to its first quote, which goes with the newline. */
  lemma {:induction false} AnchorLinePlainly(link: string, more: string, rest: string)
    requires '"' !in link && '\n' !in link && '\n' !in more
    ensures var body := "<a href=\"" + link + "\"" + more + "\n" + rest;
            && Links(body) == [link] + Links(rest)
            && SafeLinks(body) == [link] + SafeLinks(rest)
            && Scrubbed(body) == "<a href=\"" + link + "\0" + more + "\0" + Scrubbed(rest)
            && (Closed(body) <==> Closed(rest))
  {
    hide Find, LineLinks, ScrubbedLine, ClosedLine;
    var line := "<a href=\"" + link + "\"" + more;
    AnchorGivesLink(link, more);
    assert '\n' !in "<a href=\"";
    FirstLine(line, rest);
    assert "<a href=\"" + link + "\"" + more + "\n" + rest == line + "\n" + rest;
  }

  /** At an anchor line without a closing quote the scan breaks off. */
  lemma {:induction false} OpenAnchorIsNotClosed(link: string, rest: string)
    requires '"' !in link && '\n' !in link
    ensures var body := "<a href=\"" + link + "\n" + rest;
            !Closed(body) && SafeLinks(body) == []
  {
    hide Find;
    var line := "<a href=\"" + link;
    assert '\n' !in "<a href=\"" && line[9..] == link;
    FirstLine(line, rest);
    assert "<a href=\"" + link + "\n" + rest == line + "\n" + rest;
  }

  /** A line that begins as an anchor gives the text up to its first quote; any other line gives nothing. */
  lemma {:induction false} AnchorGivesLink(link: string, more: string)
    requires '"' !in link
    ensures var line := "<a href=\"" + link + "\"" + more;
            && LineLinks(line) == [link]
            && ClosedLine(line)
            && ScrubbedLine(line) == "<a href=\"" + link + "\0" + more
  {
    var line := "<a href=\"" + link + "\"" + more;
    var text := link + ("\"" + more);
    assert line[9..] == text;
    FindIs(text, '"', |link|);
    assert text[|link|] == '"' && text[..|link|] == link;
    assert line[9 + |link| := NUL] == "<a href=\"" + link + "\0" + more;
  }

  lemma {:induction false} OtherGivesNothing(line: string)
    requires !("<a href=\"" <= line)
    ensures LineLinks(line) == [] && ClosedLine(line) && ScrubbedLine(line) == line
  {
  }

  /** `texts` are what the line gives: nothing, or the text between the anchor's two quotes. */
  ghost predicate Gives(line: string, texts: seq<string>) {
    if "<a href=\"" <= line then
      |texts| == 1 && '"' !in texts[0] && exists more :: line == "<a href=\"" + texts[0] + "\"" + more
    else texts == []
  }

  function Flat(texts: seq<seq<string>>): seq<string> {
    if texts == [] then [] else texts[0] + Flat(texts[1..])
  }

  /** The links of a closed page are exactly the texts its lines give, line by line. */
  lemma {:induction false} PageLinks(lines: seq<string>, tail: string, texts: seq<seq<string>>)
    requires (forall i :: 0 <= i < |lines| ==> '\n' !in lines[i]) && '\n' !in tail
    requires |texts| == |lines| && forall i :: 0 <= i < |lines| ==> Gives(lines[i], texts[i])
    ensures Links(Joined(lines) + tail) == Flat(texts) && Closed(Joined(lines) + tail)
    decreases |lines|
  {
    hide Links, SafeLinks, Scrubbed, Closed, LineLinks, ClosedLine, Find;
    LastTextPlainly(tail);
    if lines == [] {
      assert Joined(lines) + tail == tail;
    } else {
      var line, rest := lines[0], Joined(lines[1..]) + tail;
      assert Joined(lines) + tail == line + "\n" + rest;
      PageLinks(lines[1..], tail, texts[1..]);
      assert Gives(line, texts[0]);
      if "<a href=\"" <= line {
        var more :| line == "<a href=\"" + texts[0][0] + "\"" + more;
        LineHas(line, texts[0][0], more);
        AnchorLinePlainly(texts[0][0], more, rest);
        assert texts[0] == [texts[0][0]];
      } else {
        OtherLinePlainly(line, rest);
        assert [] + Flat(texts[1..]) == Flat(texts[1..]);
      }
    }
  }

  lemma {:induction false} LineHas(line: string, link: string, more: string)
    requires line == "<a href=\"" + link + "\"" + more && '\n' !in line
    ensures '\n' !in link && '\n' !in more
  {
    assert forall c :: c in link || c in more ==> c in line;
  }

  /** The scan writes nothing but NULs, and those only over newlines and quotes of lines that have ended. */
  lemma {:induction false} ScrubbedKeeps(body: string, i: nat)
    requires i < |body|
    ensures Scrubbed(body)[i] == body[i] || (Scrubbed(body)[i] == NUL && (body[i] == '\n' || body[i] == '"'))
    ensures body[i] == '\n' ==> Scrubbed(body)[i] == NUL
    ensures '\n' !in body[i..] ==> Scrubbed(body)[i] == body[i]
    decreases |body|
  {
    hide Scrubbed, ScrubbedLine, Find;
    var n := Find(body, '\n');
    ScrubbedAt(body, i);
    if n < |body| {
      if i < n {
        ScrubbedLineKeeps(body[..n], i);
        assert body[i..][n - i] == '\n';
      } else if i == n {
        assert body[i..][0] == '\n';
      } else {
        assert body[n + 1..][i - n - 1..] == body[i..];
        ScrubbedKeeps(body[n + 1..], i - n - 1);
      }
    }
  }

  lemma {:induction false} ScrubbedAt(body: string, i: nat)
    requires i < |body|
    ensures var n := Find(body, '\n');
            Scrubbed(body)[i] == if n == |body| then body[i]
                                 else if i < n then ScrubbedLine(body[..n])[i]
                                 else if i == n then NUL else Scrubbed(body[n + 1..])[i - n - 1]
  {
    hide ScrubbedLine, Find;
    var n := Find(body, '\n');
    if n < |body| {
      assert Scrubbed(body) == ScrubbedLine(body[..n]) + [NUL] + Scrubbed(body[n + 1..]);
    }
  }

  lemma {:induction false} ScrubbedLineKeeps(line: string, i: nat)
    requires i < |line|
    ensures ScrubbedLine(line)[i] == line[i] || (ScrubbedLine(line)[i] == NUL && line[i] == '"')
  {
  }

  /** Cut the text at `start` at its first quote and copy what stands before it. */
  method CutLink(a: array<char>, start: nat, ghost text: string) returns (link: string, found: bool)
    requires HoldsAt(a, start, text)
    modifies a
    ensures found <==> '"' in text
    ensures found ==> link == text[..Find(text, '"')]
    ensures a[..] == if found then old(a[..])[start + Find(text, '"') := NUL] else old(a[..])
  {
    var end := StrChr(a, start, '"', text);
    ghost var q := Find(text, '"');
    if end == -1 {
      return "", false;
    }
    assert text[q] == '"';
    a[end] := NUL;
    var len := StrLen(a, start, text[..q]);
    link := a[start..start + len];
    found := true;
  }

  lemma {:induction false} AnchorParts(line: string)
    requires ANCHOR <= line
    ensures ClosedLine(line) <==> '"' in line[9..]
    ensures LineLinks(line) == [line[9..][..Find(line[9..], '"')]]
    ensures ClosedLine(line) ==> ScrubbedLine(line) == line[9 + Find(line[9..], '"') := NUL]
  {
  }

  /** An anchor line, already ended by a NUL: its link is cut off at the quote. */
  method CutAnchor(a: array<char>, content: nat, ghost done: string, ghost line: string, ghost more: string)
    returns (link: string, found: bool)
    requires a[..] == done + line + [NUL] + more && content == |done| && NUL !in line && ANCHOR <= line
    modifies a
    ensures found <==> ClosedLine(line)
    ensures found ==> [link] == LineLinks(line) && a[..] == done + ScrubbedLine(line) + [NUL] + more
  {
    hide Find, ScrubbedLine, LineLinks, ClosedLine;
    ghost var text := line[9..];
    AnchorParts(line);
    Pieces(a[..], done, line, NUL, more);
    assert HoldsAt(a, content + 9, text);
    link, found := CutLink(a, content + 9, text);
    if found {
      Replaced(done, line, more, 9 + Find(text, '"'));
    }
  }

  /** One line: the newline is at `tok`. Yields the links to offer and cuts the line up. */
  method ScanLine(a: array<char>, content: nat, tok: nat, ghost done: string, ghost line: string, ghost more: string)
    returns (offered: seq<string>, crashed: bool)
    requires a[..] == done + line + ['\n'] + more && content == |done| && tok == |done| + |line| && NUL !in line
    modifies a
    ensures crashed <==> !ClosedLine(line)
    ensures offered == if crashed then [] else LineLinks(line)
    ensures !crashed ==> a[..] == done + ScrubbedLine(line) + [NUL] + more
  {
    Pieces(a[..], done, line, '\n', more);
    a[tok] := NUL;
    assert a[..] == done + line + [NUL] + more;
    Pieces(a[..], done, line, NUL, more);
    var anchor := BeginsWith(a, content, ANCHOR, line);
    if anchor {
      var link, found := CutAnchor(a, content, done, line, more);
      return if found then [link] else [], !found;
    }
    return [], false;
  }

  lemma {:induction false} Pieces(s: string, done: string, line: string, c: char, more: string)
    requires s == done + line + [c] + more
    ensures |s| == |done| + |line| + 1 + |more| && s[|done| + |line|] == c
    ensures forall i :: 0 <= i < |line| ==> s[|done| + i] == line[i]
  {
  }

  lemma {:induction false} Replaced(done: string, line: string, more: string, k: nat)
    requires k < |line|
    ensures (done + line + [NUL] + more)[|done| + k := NUL] == done + line[k := NUL] + [NUL] + more
  {
  }

  /** The page is `done + rest + tail` by now; `done` is scanned, and has had the links `offered`. */
  ghost predicate Scanned(body: string, done: string, rest: string, offered: seq<string>) {
    && (Closed(body) <==> Closed(rest))
    && Links(body) == offered + Links(rest)
    && SafeLinks(body) == offered + SafeLinks(rest)
    && Scrubbed(body) == done + Scrubbed(rest)
  }

  lemma {:induction false} ScannedLine(body: string, done: string, rest: string, offered: seq<string>)
    requires Scanned(body, done, rest, offered)
    requires var n := Find(rest, '\n'); n < |rest| && ClosedLine(rest[..n])
    ensures var n := Find(rest, '\n');
            Scanned(body, done + ScrubbedLine(rest[..n]) + [NUL], rest[n + 1..], offered + LineLinks(rest[..n]))
  {
    hide Scrubbed, ScrubbedLine, LineLinks, Links, SafeLinks, Closed, ClosedLine, Find;
    var n := Find(rest, '\n');
    var line, next := rest[..n], rest[n + 1..];
    Unfolded(rest);
    assert done + (ScrubbedLine(line) + [NUL] + Scrubbed(next)) == done + ScrubbedLine(line) + [NUL] + Scrubbed(next);
    assert offered + (LineLinks(line) + Links(next)) == offered + LineLinks(line) + Links(next);
    assert offered + (LineLinks(line) + SafeLinks(next)) == offered + LineLinks(line) + SafeLinks(next);
  }

  lemma {:induction false} Unfolded(rest: string)
    requires Find(rest, '\n') < |rest|
    ensures var n := Find(rest, '\n');
            && Scrubbed(rest) == ScrubbedLine(rest[..n]) + [NUL] + Scrubbed(rest[n + 1..])
            && Links(rest) == LineLinks(rest[..n]) + Links(rest[n + 1..])
            && (ClosedLine(rest[..n]) ==> SafeLinks(rest) == LineLinks(rest[..n]) + SafeLinks(rest[n + 1..]))
            && (!ClosedLine(rest[..n]) ==> SafeLinks(rest) == [])
            && (Closed(rest) <==> ClosedLine(rest[..n]) && Closed(rest[n + 1..]))
  {
  }

  lemma {:induction false} OpenLineLinks(line: string)
    requires !ClosedLine(line)
    ensures LineLinks(line) != []
  {
  }

  lemma {:induction false} SameTail(front: seq<string>, xs: seq<string>, ys: seq<string>)
    ensures front + xs == front + ys <==> xs == ys
  {
    assert (front + xs)[|front|..] == xs && (front + ys)[|front|..] == ys;
  }

  /** The links offered are all the links exactly if the page is closed. */
  lemma {:induction false} SafeLinksAll(body: string)
    ensures SafeLinks(body) == Links(body) <==> Closed(body)
    decreases |body|
  {
    hide SafeLinks, Links, LineLinks, Closed, ClosedLine, Find;
    var n := Find(body, '\n');
    if n == |body| {
      LastLine(body);
    } else {
      var line, rest := body[..n], body[n + 1..];
      Unfolded(body);
      if ClosedLine(line) {
        SafeLinksAll(rest);
        SameTail(LineLinks(line), SafeLinks(rest), Links(rest));
      } else {
        OpenLineLinks(line);
      }
    }
  }

  method NextNewline(a: array<char>, content: nat, ghost done: string, ghost rest: string, ghost tail: string)
    returns (tok: int)
    requires a[..] == done + rest + tail && content == |done| && NUL !in rest && tail != "" && tail[0] == NUL
    ensures tok == if Find(rest, '\n') < |rest| then content + Find(rest, '\n') else -1
  {
    assert a[..] == done + rest + [NUL] + tail[1..];
    Pieces(a[..], done, rest, NUL, tail[1..]);
    tok := StrChr(a, content, '\n', rest);
  }

  /** The loop over the page: its text `body` ends with the first NUL. `crashed` stands for writing through the NULL
      pointer of a missing closing quote. */
  method ScanLinks(a: array<char>, ghost body: string, ghost tail: string) returns (offered: seq<string>, crashed: bool)
    requires a[..] == body + tail && NUL !in body && tail != "" && tail[0] == NUL
    modifies a
    ensures crashed <==> !Closed(body)
    ensures offered == SafeLinks(body)
    ensures !crashed ==> offered == Links(body) && a[..] == Scrubbed(body) + tail
  {
    hide Scrubbed, ScrubbedLine, LineLinks, Links, SafeLinks, Closed, ClosedLine, Find;
    offered, crashed := [], false;
    var content := 0;
    ghost var done, rest := "", body;
    var tok := NextNewline(a, content, done, rest, tail);
    while tok != -1
      invariant a[..] == done + rest + tail && content == |done| && NUL !in rest
      invariant Scanned(body, done, rest, offered)
      invariant tok == if Find(rest, '\n') < |rest| then content + Find(rest, '\n') else -1
      decreases |rest|
    {
      ghost var n := Find(rest, '\n');
      ghost var line, next := rest[..n], rest[n + 1..];
      Regroup(done, rest, n, tail);
      var found, bad := ScanLine(a, content, tok, done, line, next + tail);
      Unfolded(rest);
      if bad {
        assert offered + [] == offered;
        return offered, true;
      }
      ScannedLine(body, done, rest, offered);
      offered := offered + found;
      content := tok + 1;
      done, rest := done + ScrubbedLine(line) + [NUL], next;
      tok := NextNewline(a, content, done, rest, tail);
    }
    LastLine(rest);
    assert offered + [] == offered;
  }

  lemma {:induction false} LastLine(rest: string)
    requires Find(rest, '\n') == |rest|
    ensures Scrubbed(rest) == rest && Links(rest) == SafeLinks(rest) == [] && Closed(rest)
  {
  }

  lemma {:induction false} Regroup(done: string, rest: string, n: nat, tail: string)
    requires n < |rest| && rest[n] == '\n'
    ensures done + rest + tail == done + rest[..n] + ['\n'] + (rest[n + 1..] + tail)
  {
  }
}
