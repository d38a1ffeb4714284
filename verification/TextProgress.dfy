/** What the builder has done to the trie after some lines of a text. */
module TextProgress {
  import opened Wrappers
  import opened Words
  import opened Postings
  import opened TrieStore
  import opened LineProgress

  /** None of the first `n` lines has a word. */
  predicate Wordless(lines: seq<string>, n: nat)
    requires n <= |lines|
  {
    n == 0 || (Wordless(lines, n - 1) && Split(lines[n - 1]) == [])
  }

  function WordCount(lines: seq<string>, n: nat): nat
    requires n <= |lines|
  {
    if n == 0 then 0 else WordCount(lines, n - 1) + |Split(lines[n - 1])|
  }

  lemma {:induction false} CountNone(lines: seq<string>)
    ensures WordCount(lines, 0) == 0
  {
  }

  lemma {:induction false} CountNext(lines: seq<string>, n: nat)
    requires n < |lines|
    ensures WordCount(lines, n + 1) == WordCount(lines, n) + |Split(lines[n])|
  {
  }

  /** The first word of the first `n` lines; empty if they have none. */
  function FirstWord(lines: seq<string>, n: nat): string
    requires n <= |lines|
  {
    if n == 0 then ""
    else if !Wordless(lines, n - 1) then FirstWord(lines, n - 1)
    else if Split(lines[n - 1]) == [] then "" else Split(lines[n - 1])[0]
  }

  /** The text as the builder takes it: its first letter passes for the root's. */
  function Taken(rootLetter: Option<char>, lines: seq<string>): (taken: seq<string>)
    ensures |taken| == |lines|
    ensures forall i :: 0 <= i < |lines| ==>
                          taken[i] == if Wordless(lines, i) then Effective(rootLetter, lines[i]) else lines[i]
  {
    seq(|lines|, i requires 0 <= i < |lines| =>
      if Wordless(lines, i) then Effective(rootLetter, lines[i]) else lines[i])
  }

  lemma {:induction false} WordlessPlainly(lines: seq<string>, n: nat)
    requires n <= |lines|
    ensures Wordless(lines, n) <==> forall j :: 0 <= j < n ==> Split(lines[j]) == []
  {
    if n > 0 {
      WordlessPlainly(lines, n - 1);
    }
  }

  /** In plain terms: the first word of the text gets the root's letter in place of its own, and that is all. */
  lemma {:induction false} TakenPlainly(lines: seq<string>, r: char, i: nat)
    requires i < |lines| && r != ' ' && r != '\t'
    ensures Taken(None, lines)[i] == lines[i]
    ensures var ws, taken := Split(lines[i]), Taken(Some(r), lines)[i];
            if ws != [] && forall j :: 0 <= j < i ==> Split(lines[j]) == []
            then ws[0] != "" && Split(taken) == [[r] + ws[0][1..]] + ws[1..]
            else taken == lines[i]
  {
    hide Split, Taken;
    WordlessPlainly(lines, i);
    ReplaceFirstSplit(lines[i], r);
  }

  lemma {:induction false} FirstWordPlainly(lines: seq<string>, n: nat, i: nat)
    requires i < n <= |lines| && forall j :: 0 <= j < i ==> Split(lines[j]) == []
    ensures Split(lines[i]) != [] ==> FirstWord(lines, n) == Split(lines[i])[0]
    ensures Wordless(lines, n) ==> FirstWord(lines, n) == ""
    decreases n
  {
    hide Split;
    WordlessPlainly(lines, n - 1);
    WordlessPlainly(lines, n);
    if i < n - 1 {
      FirstWordPlainly(lines, n - 1, i);
    }
  }

  ghost predicate Built(s0: Store, s: Store, rootLetter: Option<char>, lines: seq<string>, n: nat, file: string)
    requires WellFormed(s0) && n <= |lines|
  {
    var base := Kept(s0, |FirstWord(lines, n)| >= 2);
    && WellFormed(s)
    && (forall v :: Lookup(s, v) == AddLines(Lookup(base, v), Taken(rootLetter, lines), n, v, file))
    && TotalFrequency(s) == TotalFrequency(s0) + WordCount(lines, n)
    && (s0 == [] ==> Exact(s))
    && (Wordless(lines, n) ==> s == s0)
  }

  lemma {:induction false} BuiltStart(s0: Store, rootLetter: Option<char>, lines: seq<string>, file: string)
    requires WellFormed(s0)
    ensures Built(s0, s0, rootLetter, lines, 0, file)
  {
  }

  lemma {:induction false} WordlessAsIs(rootLetter: Option<char>, line: string)
    requires Split(line) == [] && (rootLetter.Some? ==> !IsBlank(rootLetter.value))
    ensures Effective(rootLetter, line) == line
  {
    if rootLetter.Some? {
      ReplaceFirstSplit(line, rootLetter.value);
    }
  }

  lemma {:induction false} WordlessAddsNothing(ps: seq<Posting>, rootLetter: Option<char>, lines: seq<string>, n: nat,
                                               v: string, file: string)
    requires n <= |lines| && Wordless(lines, n) && (rootLetter.Some? ==> !IsBlank(rootLetter.value))
    ensures AddLines(ps, Taken(rootLetter, lines), n, v, file) == ps
  {
    hide Split, Effective, Taken, AddPosting;
    if n > 0 {
      WordlessAddsNothing(ps, rootLetter, lines, n - 1, v, file);
      WordlessAsIs(rootLetter, lines[n - 1]);
      assert Taken(rootLetter, lines)[n - 1] == lines[n - 1];
      assert AddWords(ps, [], v, n - 1, file) == ps;
    }
  }

  lemma {:induction false} TakenSplit(rootLetter: Option<char>, lines: seq<string>, n: nat)
    requires n < |lines| && (rootLetter.Some? ==> !IsBlank(rootLetter.value))
    ensures var ws, ts := Split(lines[n]), Split(Taken(rootLetter, lines)[n]);
            |ts| == |ws| && (ws != [] ==> |ts[0]| == |ws[0]|)
  {
    if rootLetter.Some? {
      ReplaceFirstSplit(lines[n], rootLetter.value);
      if Split(lines[n]) != [] {
        var w := Split(lines[n])[0];
        assert |[rootLetter.value] + w[1..]| == |w|;
      }
    }
  }

  lemma {:induction false} BuiltLine(s0: Store, s: Store, t: Store, rootLetter: Option<char>, lines: seq<string>,
                                     n: nat, file: string)
    requires WellFormed(s0) && n < |lines| && (rootLetter.Some? ==> !IsBlank(rootLetter.value))
    requires Built(s0, s, rootLetter, lines, n, file)
    requires Progress(s, t, Wordless(lines, n), Scan(Split(Taken(rootLetter, lines)[n]), ""), n, file)
    requires Wordless(lines, n + 1) ==> t == s
    ensures Built(s0, t, rootLetter, lines, n + 1, file)
  {
    var taken := Taken(rootLetter, lines);
    var words := Split(taken[n]);
    TakenSplit(rootLetter, lines, n);
    var base := Kept(s0, |FirstWord(lines, n + 1)| >= 2);
    forall v ensures Lookup(t, v) == AddLines(Lookup(base, v), taken, n + 1, v, file) {
      if Wordless(lines, n) {
        WordlessAddsNothing(Lookup(base, v), rootLetter, lines, n, v, file);
        assert s == s0;
        assert |FirstWord(lines, n + 1)| == FirstLength(Scan(words, ""));
      }
    }
  }
}
