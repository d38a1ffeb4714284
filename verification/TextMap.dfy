/** Loading a file of numbered lines. */
module TextMap {
  import opened CText
  import opened Words

  class Text {
    var numberOfWords: int
    const content: string
    var next: Text?

    constructor (content: string)
      ensures this.content == content && numberOfWords == 0 && next == null
    {
      this.content := content;
      numberOfWords, next := 0, null;
    }
  }

  ghost predicate NextIs(texts: seq<Text>, k: nat)
    requires k < |texts|
    reads texts`next
  {
    texts[k].next == if k + 1 < |texts| then texts[k + 1] else null
  }

  /** `texts` are the texts of the list at `head`, in order. */
  ghost predicate TextList(head: Text?, texts: seq<Text>)
    reads texts`next
  {
    && head == (if texts == [] then null else texts[0])
    && (forall i, j :: 0 <= i < j < |texts| ==> texts[i] != texts[j])
    && (forall k :: 0 <= k < |texts| ==> NextIs(texts, k))
  }

  function Contents(texts: seq<Text>): (lines: seq<string>)
    ensures |lines| == |texts| && forall i :: 0 <= i < |texts| ==> lines[i] == texts[i].content
  {
    seq(|texts|, i requires 0 <= i < |texts| => texts[i].content)
  }

  // ---- What the loader makes of a file ----

  datatype Outcome =
    | Loaded(contents: seq<string>)
    | Misnumbered
    | NoSeparator    // the search for a blank gives NULL, and the loader computes with it

  /** `bytes` are the characters read but for the newlines. */
  datatype Load = Load(outcome: Outcome, bytes: nat)

  /** One line, after the line numbered `check`: its text follows its number and a separator, the first blank. */
  function LoadLine(line: string, check: int): Outcome {
    var str := CStr(line);
    var index := RunLength(str);
    if index == |str| then NoSeparator
    else if Atoi(str[..index]) - 1 != check then Misnumbered
    else Loaded([str[index + 1..]])
  }

  function LoadFrom(file: string, check: int): Load
    decreases |file|
  {
    var n := Find(file, '\n');
    var first := LoadLine(file[..n], check);
    if !first.Loaded? || n == |file| then Load(first, n)
    else
      var rest := LoadFrom(file[n + 1..], check + 1);
      Load(if rest.outcome.Loaded? then Loaded(first.contents + rest.outcome.contents) else rest.outcome,
           n + rest.bytes)
  }

  // ---- Printing and loading ----

  /** The lines from number `i` on, each as its number, its separator and its text; no newline at the end. */
  function PrintFrom(contents: seq<string>, separators: string, i: nat): string
    requires i < |contents| == |separators|
    decreases |contents| - i
  {
    Decimal(i) + [separators[i]] + contents[i]
    + if i + 1 < |contents| then "\n" + PrintFrom(contents, separators, i + 1) else ""
  }

  ghost predicate Printable(contents: seq<string>, separators: string) {
    && |contents| == |separators|
    && (forall i :: 0 <= i < |separators| ==> separators[i] == ' ' || separators[i] == '\t')
    && (forall i :: 0 <= i < |contents| ==> '\n' !in contents[i] && '\0' !in contents[i])
  }

  /** A line in its parts: no blank before the first one, and a text up to the line's end or to a NUL. */
  ghost predicate Divided(line: string, number: string, blank: char, text: string, rest: string) {
    && line == number + [blank] + text + rest
    && (blank == ' ' || blank == '\t')
    && ' ' !in number && '\t' !in number
    && '\0' !in number && '\0' !in text
    && (rest == "" || rest[0] == '\0')
  }

  /** What stands before the first blank of the line reads as `id`, and `text` is what follows it. */
  ghost predicate Bears(line: string, id: int, text: string) {
    exists number, blank, rest :: Divided(line, number, blank, text, rest) && Atoi(number) == id
  }

  /** Where the parts of a line are. */
  lemma {:induction false} PartsFound(line: string, number: string, blank: char, text: string, rest: string)
    requires Divided(line, number, blank, text, rest)
    ensures var str := CStr(line);
            && RunLength(str) == |number| < |str|
            && str[..|number|] == number
            && str[|number| + 1..] == text
  {
    hide RunLength;
    var str := number + [blank] + text;
    assert str + rest == line;
    assert str[|number|] == blank != NUL;
    assert NUL !in str;
    FindIs(line, NUL, |str|);
    assert CStr(line) == str;
    RunLengthIs(str, |number|);
  }

  lemma {:induction false} PartsThere(line: string)
    requires RunLength(CStr(line)) < |CStr(line)|
    ensures var str := CStr(line);
            var n := RunLength(str);
            Divided(line, str[..n], str[n], str[n + 1..], line[|str|..])
  {
    var str := CStr(line);
    var n := RunLength(str);
    assert line == str + line[|str|..];
    assert str == str[..n] + [str[n]] + str[n + 1..];
  }

  /** A line loads as a text exactly if it bears the number whose turn it is, and then that text. */
  lemma {:induction false} LineLoadsExactly(line: string, check: int, text: string)
    ensures LoadLine(line, check) == Loaded([text]) <==> Bears(line, check + 1, text)
  {
    hide CStr, RunLength, Atoi, Divided;
    if LoadLine(line, check) == Loaded([text]) {
      PartsThere(line);
    }
    if Bears(line, check + 1, text) {
      var number, blank, rest :| Divided(line, number, blank, text, rest) && Atoi(number) == check + 1;
      PartsFound(line, number, blank, text, rest);
    }
  }

  /** A printed line is read back, in its turn. */
  lemma {:induction false} LineRoundTrip(i: nat, separator: char, content: string)
    requires (separator == ' ' || separator == '\t') && '\n' !in content && '\0' !in content
    ensures var line := Decimal(i) + [separator] + content;
            '\n' !in line && LoadLine(line, i - 1) == Loaded([content])
  {
    var line := Decimal(i) + [separator] + content;
    assert Decimal(i) + "" == Decimal(i) && line + "" == line;
    AtoiDecimal(i, "");
    assert Divided(line, Decimal(i), separator, content, "");
    LineLoadsExactly(line, i - 1, content);
  }

  lemma {:induction false} LoadFirst(line: string, rest: string, check: int, content: string)
    requires '\n' !in line && LoadLine(line, check) == Loaded([content])
    ensures LoadFrom(line, check).outcome == Loaded([content])
    ensures var more := LoadFrom(rest, check + 1).outcome;
            more.Loaded? ==> LoadFrom(line + ("\n" + rest), check).outcome == Loaded([content] + more.contents)
  {
    hide LoadLine;
    var file := line + ("\n" + rest);
    FindIs(line, '\n', |line|);
    FindIs(file, '\n', |line|);
    assert line[..|line|] == line && file[..|line|] == line && file[|line| + 1..] == rest;
  }

  /** Printed lines come back, all of them and in order. */
  lemma {:induction false} LoaderRoundTrip(contents: seq<string>, separators: string, i: nat)
    requires Printable(contents, separators) && i < |contents|
    ensures LoadFrom(PrintFrom(contents, separators, i), i - 1).outcome == Loaded(contents[i..])
    decreases |contents| - i
  {
    hide LoadLine, LoadFrom, CStr, Decimal;
    var file, line := PrintFrom(contents, separators, i), Decimal(i) + [separators[i]] + contents[i];
    LineRoundTrip(i, separators[i], contents[i]);
    if i + 1 < |contents| {
      var rest := PrintFrom(contents, separators, i + 1);
      assert file == line + ("\n" + rest);
      LoaderRoundTrip(contents, separators, i + 1);
      LoadFirst(line, rest, i - 1, contents[i]);
      assert [contents[i]] + contents[i + 1..] == contents[i..];
    } else {
      assert file == line;
      LoadFirst(line, "", i - 1, contents[i]);
      assert contents[i..] == [contents[i]];
    }
  }

  /** Whatever the file, once it is loaded the bytes counted are its characters other than newlines. */
  lemma {:induction false} BytesAreNonNewlines(file: string, check: int)
    requires LoadFrom(file, check).outcome.Loaded?
    ensures LoadFrom(file, check).bytes == |file| - multiset(file)['\n']
    decreases |file|
  {
    hide LoadLine;
    var n := Find(file, '\n');
    var line := file[..n];
    assert '\n' !in multiset(line);
    if n == |file| {
      assert line == file;
    } else {
      var rest := file[n + 1..];
      assert file == line + ['\n'] + rest;
      assert multiset(file) == multiset(line) + multiset{'\n'} + multiset(rest);
      BytesAreNonNewlines(rest, check + 1);
    }
  }

  /** The lines of a file; the last one ends with the file. */
  function LinesOf(file: string): (lines: seq<string>)
    ensures lines != []
    decreases |file|
  {
    var n := Find(file, '\n');
    [file[..n]] + if n == |file| then [] else LinesOf(file[n + 1..])
  }

  /** In plain terms: a newline ends a line and begins another. */
  lemma {:induction false} LinesOfPlainly(line: string, rest: string)
    requires '\n' !in line
    ensures LinesOf(line) == [line]
    ensures LinesOf(line + "\n" + rest) == [line] + LinesOf(rest)
  {
    var file := line + "\n" + rest;
    FindIs(line, '\n', |line|);
    FindIs(file, '\n', |line|);
    assert line[..|line|] == line && file[..|line|] == line && file[|line| + 1..] == rest;
  }

  /** Loading ends with the file, or with the first line that fails; its own characters are counted. */
  lemma {:induction false} LoadEndsPlainly(line: string, rest: string, check: int)
    requires '\n' !in line
    ensures LoadFrom(line, check) == Load(LoadLine(line, check), |line|)
    ensures !LoadLine(line, check).Loaded? ==>
              LoadFrom(line + "\n" + rest, check) == Load(LoadLine(line, check), |line|)
  {
    hide LoadLine;
    var file := line + "\n" + rest;
    FindIs(line, '\n', |line|);
    FindIs(file, '\n', |line|);
    assert line[..|line|] == line && file[..|line|] == line;
  }

  /** Line `k` bears the number `check + 1 + k` and the text `contents[k]`. */
  ghost predicate Numbered(lines: seq<string>, check: int, contents: seq<string>) {
    && |contents| == |lines|
    && (forall k :: 0 <= k < |lines| ==> Bears(lines[k], check + 1 + k, contents[k]))
  }

  lemma {:induction false} NumberedCons(line: string, lines: seq<string>, check: int, contents: seq<string>)
    ensures Numbered([line] + lines, check, contents) <==>
            && contents != []
            && Bears(line, check + 1, contents[0])
            && Numbered(lines, check + 1, contents[1..])
  {
    hide Bears;
    var all := [line] + lines;
    if Numbered(all, check, contents) {
      assert Bears(all[0], check + 1 + 0, contents[0]);
      forall k | 0 <= k < |lines| ensures Bears(lines[k], check + 1 + 1 + k, contents[1..][k]) {
        assert Bears(all[k + 1], check + 1 + (k + 1), contents[k + 1]);
      }
    }
    if contents != [] && Bears(line, check + 1, contents[0]) && Numbered(lines, check + 1, contents[1..]) {
      forall k | 0 <= k < |all| ensures Bears(all[k], check + 1 + k, contents[k]) {
        if k > 0 {
          assert Bears(lines[k - 1], check + 1 + 1 + (k - 1), contents[1..][k - 1]);
        }
      }
    }
  }

  function Joined(contents: seq<string>, outcome: Outcome): Outcome {
    if outcome.Loaded? then Loaded(contents + outcome.contents) else outcome
  }

  lemma {:induction false} LoadNext(file: string, check: int)
    ensures var n := Find(file, '\n');
            var first := LoadLine(file[..n], check);
            if first.Loaded? && n < |file| then
              var rest := LoadFrom(file[n + 1..], check + 1);
              LoadFrom(file, check) == Load(Joined(first.contents, rest.outcome), n + rest.bytes)
            else
              LoadFrom(file, check) == Load(first, n)
  {
  }

  lemma {:induction false} OneText(line: string, check: int)
    ensures LoadLine(line, check).Loaded? ==> |LoadLine(line, check).contents| == 1
  {
  }

  lemma {:induction false} OneMore(first: Outcome, rest: Outcome, contents: seq<string>)
    requires first.Loaded? && |first.contents| == 1
    ensures Joined(first.contents, rest) == Loaded(contents) <==>
            contents != [] && first == Loaded([contents[0]]) && rest == Loaded(contents[1..])
  {
    if contents != [] {
      assert [contents[0]] + contents[1..] == contents;
    }
  }

  /** A file loads as given texts exactly if each of its lines bears its own number and its text. */
  lemma {:induction false} LoadedExactly(file: string, check: int, contents: seq<string>)
    ensures LoadFrom(file, check).outcome == Loaded(contents) <==> Numbered(LinesOf(file), check, contents)
    decreases |file|
  {
    hide LoadLine, LoadFrom, Numbered, Bears, Find, Joined;
    var n := Find(file, '\n');
    var line := file[..n];
    var first := LoadLine(line, check);
    LoadNext(file, check);
    OneText(line, check);
    if contents != [] {
      LineLoadsExactly(line, check, contents[0]);
    }
    if n == |file| {
      NumberedCons(line, [], check, contents);
      if first.Loaded? {
        OneMore(first, Loaded([]), contents);
        JoinedNone(first.contents);
      }
      if contents != [] {
        NumberedNone(check + 1, contents[1..]);
      }
    } else {
      NumberedCons(line, LinesOf(file[n + 1..]), check, contents);
      if first.Loaded? {
        OneMore(first, LoadFrom(file[n + 1..], check + 1).outcome, contents);
      }
      if contents != [] {
        LoadedExactly(file[n + 1..], check + 1, contents[1..]);
      }
    }
  }

  lemma {:induction false} JoinedNone(contents: seq<string>)
    ensures Joined(contents, Loaded([])) == Loaded(contents)
  {
    assert contents + [] == contents;
  }

  lemma {:induction false} NumberedNone(check: int, contents: seq<string>)
    ensures Numbered([], check, contents) <==> contents == []
  {
  }

  /** A file that ends with a newline never loads: there is a last line, it is empty, and it has no blank. */
  lemma {:induction false} FinalNewlineFails(file: string, check: int)
    ensures var outcome := LoadFrom(file, check).outcome;
            LoadFrom(file + "\n", check).outcome == if outcome.Loaded? then NoSeparator else outcome
    decreases |file|
  {
    hide LoadLine, LoadFrom, Find;
    var longer := file + "\n";
    var n := Find(file, '\n');
    FindIs(longer, '\n', n);
    assert longer[..n] == file[..n];
    LoadNext(file, check);
    LoadNext(longer, check);
    if n == |file| {
      assert longer[n + 1..] == "";
      EmptyLineFails(check + 1);
    } else {
      assert longer[n + 1..] == file[n + 1..] + "\n";
      FinalNewlineFails(file[n + 1..], check + 1);
    }
  }

  lemma {:induction false} EmptyLineFails(check: int)
    ensures LoadFrom("", check).outcome == NoSeparator
  {
  }

  // ---- The loader ----

  /** A line into a buffer of `size0` characters that grows by sixteen as it fills. */
  method ReadLine(file: string, pos0: nat, size0: nat, bytes0: int)
    returns (buffer: array<char>, eof: bool, pos: nat, size: nat, bytes: int)
    requires pos0 <= |file| && size0 > 0
    ensures fresh(buffer)
    ensures var n := Find(file[pos0..], '\n');
            && n < buffer.Length && buffer[..n] == file[pos0..][..n] && buffer[n] == NUL
            && bytes == bytes0 + n
            && (eof <==> pos0 + n == |file|)
            && pos == (if eof then |file| else pos0 + n + 1)
    ensures size >= size0
  {
    pos, size, bytes := pos0, size0, bytes0;
    var len := 0;
    buffer := new char[size];
    ghost var rest := file[pos0..];
    while pos < |file| && file[pos] != '\n'
      invariant fresh(buffer) && len < size == buffer.Length && size >= size0
      invariant pos == pos0 + len <= |file| && bytes == bytes0 + len
      invariant buffer[..len] == rest[..len] && forall i :: 0 <= i < len ==> rest[i] != '\n'
    {
      buffer[len] := file[pos];
      pos, len, bytes := pos + 1, len + 1, bytes + 1;
      if len == size {
        buffer := Grow(buffer, len);
        size := size + 16;
      }
    }
    FindIs(rest, '\n', len);
    assert buffer[..len] == rest[..len];
    buffer[len] := NUL;
    eof := pos == |file|;
    if !eof {
      pos := pos + 1;
    }
  }

  /** A list of new texts with these contents, in none of which a word has been found yet. */
  ghost predicate NewTexts(head: Text?, texts: seq<Text>, contents: seq<string>)
    reads texts
  {
    && TextList(head, texts)
    && Contents(texts) == contents
    && (forall i :: 0 <= i < |texts| ==> texts[i].numberOfWords == 0)
  }

  lemma {:induction false} NoTexts()
    ensures Contents([]) == [] && NewTexts(null, [], [])
  {
  }

  /** A new text becomes the last of the list. */
  method AppendText(T0: Text?, curText: Text?, text: Text, ghost texts0: seq<Text>)
    returns (T: Text?, ghost texts: seq<Text>)
    requires NewTexts(T0, texts0, Contents(texts0)) && text !in texts0 && text.next == null && text.numberOfWords == 0
    requires curText == if texts0 == [] then null else texts0[|texts0| - 1]
    modifies if curText == null then {} else {curText}
    ensures texts == texts0 + [text] && T != null
    ensures NewTexts(T, texts, Contents(texts)) && Contents(texts) == Contents(texts0) + [text.content]
  {
    T := T0;
    texts := texts0 + [text];
    if curText == null {
      T := text;
    } else {
      curText.next := text;
    }
    forall k | 0 <= k < |texts| ensures NextIs(texts, k) {
      if k < |texts0| - 1 {
        assert old(NextIs(texts0, k));
      }
    }
  }

  /** Up to `pos` the lines have given `contents` and `bytes`. */
  ghost predicate Loading(file: string, pos: nat, check: int, contents: seq<string>, bytes: int) {
    && pos <= |file|
    && LoadFrom(file, -1).bytes == bytes + LoadFrom(file[pos..], check).bytes
    && LoadFrom(file, -1).outcome == Joined(contents, LoadFrom(file[pos..], check).outcome)
  }

  lemma {:induction false} LoadingStart(file: string)
    ensures Loading(file, 0, -1, [], 0)
  {
  }

  lemma {:induction false} LoadingLine(file: string, pos: nat, check: int, contents: seq<string>, bytes: int)
    requires Loading(file, pos, check, contents, bytes)
    ensures var rest := file[pos..];
            var n := Find(rest, '\n');
            var first := LoadLine(rest[..n], check);
            && (!first.Loaded? || n == |rest| ==>
                  LoadFrom(file, -1).outcome == Joined(contents, first) && LoadFrom(file, -1).bytes == bytes + n)
            && (first.Loaded? && n < |rest| ==>
                  Loading(file, pos + n + 1, check + 1, contents + first.contents, bytes + n))
  {
    hide LoadLine, LoadFrom, Find;
    var rest := file[pos..];
    var n := Find(rest, '\n');
    var first := LoadLine(rest[..n], check);
    LoadNext(rest, check);
    if first.Loaded? && n < |rest| {
      assert rest[n + 1..] == file[pos + n + 1..];
      var more := LoadFrom(rest[n + 1..], check + 1).outcome;
      assert more.Loaded? ==>
          contents + (first.contents + more.contents) == contents + first.contents + more.contents;
    }
  }

  /** strpbrk: the first blank of the C string at the front of the buffer, or -1. */
  method FindBlank(a: array<char>, ghost s: string) returns (p: int)
    requires HoldsAt(a, 0, s)
    ensures p == if RunLength(s) < |s| then RunLength(s) else -1
  {
    hide RunLength;
    var i := 0;
    while a[i] != NUL
      invariant i <= |s| && (i < |s| ==> a[0 + i] == s[i])
      invariant forall j :: 0 <= j < i ==> !IsBlank(s[j])
      decreases |s| - i
    {
      if IsBlank(a[i]) {
        RunLengthIs(s, i);
        return i;
      }
      i := i + 1;
    }
    return -1;
  }

  /** The front of the buffer, copied out. */
  method CopyFront(a: array<char>, length: nat) returns (table: array<char>)
    requires length <= a.Length
    ensures fresh(table) && table.Length == length + 1 && table[..length] == a[..length]
  {
    table := new char[length + 1];
    for i := 0 to length
      invariant table[..i] == a[..i]
    {
      table[i] := a[i];
    }
  }

  /** The text of one line, if it has its number. */
  method LoadText(str: array<char>, ghost line: string, check: int) returns (outcome: Outcome, text: Text?)
    requires |line| < str.Length && str[..|line|] == line && str[|line|] == NUL
    ensures outcome == LoadLine(line, check)
    ensures outcome.NoSeparator? <==> ' ' !in CStr(line) && '\t' !in CStr(line)
    ensures forall t :: outcome == Loaded([t]) <==> Bears(line, check + 1, t)
    ensures text != null <==> outcome.Loaded?
    ensures text != null ==>
              && fresh(text) && text.next == null && text.numberOfWords == 0
              && outcome.contents == [text.content]
  {
    hide Bears, Atoi;
    ghost var s := CStr(line);
    assert HoldsAt(str, 0, s);
    forall t ensures LoadLine(line, check) == Loaded([t]) <==> Bears(line, check + 1, t) {
      LineLoadsExactly(line, check, t);
    }
    var index := FindBlank(str, s);
    if index == -1 {
      return NoSeparator, null;
    }
    assert s[index] in s;
    var table := CopyFront(str, index);
    var at := Atoi(table[..index]);
    assert table[..index] == s[..index];
    if at - 1 != check {
      return Misnumbered, null;
    }
    assert HoldsAt(str, index + 1, s[index + 1..]);
    var length := StrLen(str, index + 1, s[index + 1..]);
    var content := str[index + 1..index + 1 + length];
    assert content == s[index + 1..];
    text := new Text(content);
    outcome := Loaded([text.content]);
  }

  /** The whole file, one text a line. `N` is only set when every line could be loaded. */
  method AddFileToMaps(file: string, N0: int, bytes0: int)
    returns (T: Text?, N: int, bytes: int, ghost outcome: Outcome, ghost texts: seq<Text>)
    ensures T != null <==> outcome.Loaded?
    ensures outcome == LoadFrom(file, -1).outcome && bytes == bytes0 + LoadFrom(file, -1).bytes
    ensures if outcome.Loaded? then NewTexts(T, texts, outcome.contents) && N == |outcome.contents|
            else texts == [] && N == N0
    ensures forall i :: 0 <= i < |texts| ==> fresh(texts[i])
  {
    hide LoadFrom, LoadLine, Loading, NewTexts, Contents;
    NoTexts();
    T, texts, N, bytes := null, [], N0, bytes0;
    var curText: Text? := null;
    var check, pos, size := -1, 0, 16;
    LoadingStart(file);
    while true
      invariant pos <= |file| && size > 0 && check == |texts| - 1
      invariant NewTexts(T, texts, Contents(texts)) && forall i :: 0 <= i < |texts| ==> fresh(texts[i])
      invariant curText == if texts == [] then null else texts[|texts| - 1]
      invariant Loading(file, pos, check, Contents(texts), bytes - bytes0)
      decreases |file| - pos
    {
      LoadingLine(file, pos, check, Contents(texts), bytes - bytes0);
      ghost var rest := file[pos..];
      var str, eof;
      str, eof, pos, size, bytes := ReadLine(file, pos, size, bytes);
      var result, text := LoadText(str, rest[..Find(rest, '\n')], check);
      if text == null {
        return null, N, bytes, result, [];
      }
      check := check + 1;
      T, texts := AppendText(T, curText, text, texts);
      curText := text;
      if eof {
        N := check + 1;
        return T, N, bytes, Loaded(Contents(texts)), texts;
      }
    }
  }
}
