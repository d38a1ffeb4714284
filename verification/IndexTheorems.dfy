/** What a finished text has done to the index, in the reader's terms. */
module IndexTheorems {
  import opened Wrappers
  import opened Words
  import opened Postings
  import opened TrieStore
  import opened LineProgress
  import opened TextProgress

  // ---- A new trie ----

  lemma {:induction false} TakenAsIs(lines: seq<string>)
    ensures Taken(None, lines) == lines
  {
  }

  /** From no trie at all, every word's postings are its per-line frequencies under the naive split. */
  lemma {:induction false} FreshIndex(s: Store, lines: seq<string>, n: nat, file: string, v: string)
    requires n <= |lines| && WellFormed([]) && Built([], s, None, lines, n, file)
    ensures Lookup(s, v) == Frequencies(lines, n, v, file)
    ensures forall k :: 0 <= k < |Lookup(s, v)| ==>
              var p := Lookup(s, v)[k];
              0 <= p.textId < n && p.file == file && p.wordFrq == multiset(Split(lines[p.textId]))[v] > 0
    ensures forall j, k :: 0 <= j < k < |Lookup(s, v)| ==> Lookup(s, v)[j].textId < Lookup(s, v)[k].textId
    ensures forall i :: 0 <= i < n && v in Split(lines[i]) ==>
                          Posting(i, file, Count(Split(lines[i]), v)) in Lookup(s, v)
    ensures Lookup(s, v) == [] <==> forall i :: 0 <= i < n ==> v !in Split(lines[i])
  {
    hide Split, Frequencies, IsFrequencyList, WordCount;
    TakenAsIs(lines);
    AddLinesCounts([], lines, n, v, file);
    assert Lookup(s, v) == Frequencies(lines, n, v, file) by {
      assert [] + Frequencies(lines, n, v, file) == Frequencies(lines, n, v, file);
    }
    FrequenciesAscend(lines, n, v, file);
    NoneExactly(lines, n, v, file);
    FrequenciesPlainly(lines, n, v, file, Lookup(s, v));
    forall i | 0 <= i < n && v in Split(lines[i])
      ensures Posting(i, file, Count(Split(lines[i]), v)) in Frequencies(lines, n, v, file)
    {
      CountIn(Split(lines[i]), v);
      FrequenciesComplete(lines, n, v, file, i);
    }
  }

  lemma {:induction false} FrequenciesPlainly(lines: seq<string>, n: nat, v: string, file: string, fs: seq<Posting>)
    requires n <= |lines| && IsFrequencyList(fs, lines, n, v, file)
    ensures forall k :: 0 <= k < |fs| ==>
              0 <= fs[k].textId < n && fs[k].file == file
              && fs[k].wordFrq == multiset(Split(lines[fs[k].textId]))[v] > 0
    ensures forall j, k :: 0 <= j < k < |fs| ==> fs[j].textId < fs[k].textId
  {
    hide Split, Count;
    forall k | 0 <= k < |fs| ensures fs[k].wordFrq == multiset(Split(lines[fs[k].textId]))[v] {
      CountIsMultiplicity(Split(lines[fs[k].textId]), v);
    }
  }

  lemma {:induction false} NoneExactly(lines: seq<string>, n: nat, v: string, file: string)
    requires n <= |lines|
    ensures Frequencies(lines, n, v, file) == [] <==> forall i :: 0 <= i < n ==> v !in Split(lines[i])
  {
    hide Split, Count;
    if n > 0 {
      NoneExactly(lines, n - 1, v, file);
      CountIn(Split(lines[n - 1]), v);
      var before := Frequencies(lines, n - 1, v, file);
      assert Frequencies(lines, n, v, file) == [] <==> before == [] && v !in Split(lines[n - 1]);
    }
  }

  lemma {:induction false} CountIn(ws: seq<string>, v: string)
    ensures Count(ws, v) > 0 <==> v in ws
  {
    if ws != [] {
      CountIn(ws[..|ws| - 1], v);
      assert ws == ws[..|ws| - 1] + [ws[|ws| - 1]];
    }
  }

  /** From no trie at all: as many occurrences are counted as there are words, every node is where its spelling
      leads, and siblings have distinct letters. */
  lemma {:induction false} FreshIndexShape(s: Store, lines: seq<string>, n: nat, file: string)
    requires n <= |lines| && WellFormed([]) && Built([], s, None, lines, n, file)
    ensures TotalFrequency(s) == WordCount(lines, n)
    ensures Exact(s)
    ensures forall j, k :: 0 <= j < |s| && 0 <= k < |s| && Follows(s, j, k) ==> s[j].letter != s[k].letter
  {
    forall j, k | 0 <= j < |s| && 0 <= k < |s| && Follows(s, j, k) ensures s[j].letter != s[k].letter {
      SiblingsDiffer(s, j, k);
    }
  }

  // ---- A trie that is there already ----

  ghost predicate Continues(s0: Store, s: Store, lines: seq<string>, n: nat, file: string)
    requires WellFormed(s0) && s0 != [] && n <= |lines|
  {
    Built(s0, s, Some(s0[0].letter), lines, n, file)
  }

  /** What a word has kept: longer words with the root's letter lose their postings when the first word of the text has
      two letters or more. */
  ghost function KeptPostings(s0: Store, lines: seq<string>, n: nat, v: string): seq<Posting>
    requires WellFormed(s0) && s0 != [] && n <= |lines|
  {
    if |FirstWord(lines, n)| >= 2 && |v| >= 2 && v[0] == s0[0].letter then [] else Lookup(s0, v)
  }

  /** Whatever the file, earlier postings survive except those; the occurrences in the text, its first word under the
      root's letter, are added to them. So under a new file name its per-line frequencies follow. */
  lemma {:induction false} LaterText(s0: Store, s: Store, lines: seq<string>, n: nat, file: string, v: string)
    requires WellFormed(s0) && s0 != [] && n <= |lines| && Continues(s0, s, lines, n, file)
    ensures var kept, taken := KeptPostings(s0, lines, n, v), Taken(Some(s0[0].letter), lines);
            && Lookup(s, v) == AddLines(kept, taken, n, v, file)
            && ((forall k :: 0 <= k < |kept| ==> kept[k].file != file) ==>
                  Lookup(s, v) == kept + Frequencies(taken, n, v, file))
  {
    LookupAfterDrop(s0, v);
    var kept, taken := KeptPostings(s0, lines, n, v), Taken(Some(s0[0].letter), lines);
    assert Lookup(Kept(s0, |FirstWord(lines, n)| >= 2), v) == kept;
    if forall k :: 0 <= k < |kept| ==> kept[k].file != file {
      AddLinesCounts(kept, taken, n, v, file);
    }
  }

  // ---- When a later text is simply added ----

  /** The plain union: every word of the text joins its own earlier postings. */
  ghost predicate PlainUnion(s0: Store, s: Store, lines: seq<string>, n: nat, file: string)
    requires WellFormed(s0) && WellFormed(s) && n <= |lines|
  {
    forall v :: Lookup(s, v) == AddLines(Lookup(s0, v), lines, n, v, file)
  }

  /** Some word of two letters or more, beginning with the root's letter, has postings. */
  ghost predicate HasLongWords(s: Store)
    requires WellFormed(s) && s != []
  {
    exists v :: |v| >= 2 && v[0] == s[0].letter && Lookup(s, v) != []
  }

  /** Nothing to add; or the first word has the root's letter, and either is that letter or has nothing to destroy. */
  ghost predicate Safe(s0: Store, lines: seq<string>, n: nat)
    requires WellFormed(s0) && s0 != [] && n <= |lines|
  {
    var w := FirstWord(lines, n);
    w == "" || (w[0] == s0[0].letter && (|w| >= 2 ==> !HasLongWords(s0)))
  }

  lemma {:induction false} FirstWordNonEmpty(lines: seq<string>, n: nat)
    requires n <= |lines|
    ensures FirstWord(lines, n) == "" <==> Wordless(lines, n)
  {
    if n > 0 {
      if Wordless(lines, n - 1) {
        if Split(lines[n - 1]) != [] {
          SplitWords(lines[n - 1], Split(lines[n - 1])[0]);
        }
      } else {
        FirstWordNonEmpty(lines, n - 1);
      }
    }
  }

  /** Replacing the first letter of a line by itself changes nothing. */
  lemma {:induction false} ReplaceBySame(s: string)
    requires Split(s) != []
    ensures Split(s)[0] != "" && ReplaceFirst(s, Split(s)[0][0]) == s
  {
    if IsBlank(s[0]) {
      ReplaceBySame(s[1..]);
    } else {
      assert Split(s)[0] == s[..RunLength(s)];
    }
  }

  lemma {:induction false} TakenBySame(lines: seq<string>, n: nat, v: string, ps: seq<Posting>, file: string)
    requires n <= |lines| && FirstWord(lines, n) != ""
    ensures AddLines(ps, Taken(Some(FirstWord(lines, n)[0]), lines), n, v, file) == AddLines(ps, lines, n, v, file)
  {
    hide Split, Taken;
    var r := FirstWord(lines, n)[0];
    if Wordless(lines, n - 1) {
      FirstLetterNotBlank(lines, n);
      WordlessAddsNothing(ps, Some(r), lines, n - 1, v, file);
      WordlessAddsNothing(ps, None, lines, n - 1, v, file);
      TakenAsIs(lines);
      ReplaceBySame(lines[n - 1]);
    } else {
      TakenBySame(lines, n - 1, v, ps, file);
    }
  }

  lemma {:induction false} FirstLetterNotBlank(lines: seq<string>, n: nat)
    requires n <= |lines| && FirstWord(lines, n) != ""
    ensures !IsBlank(FirstWord(lines, n)[0])
  {
    if Wordless(lines, n - 1) {
      SplitWords(lines[n - 1], Split(lines[n - 1])[0]);
    } else {
      FirstLetterNotBlank(lines, n - 1);
    }
  }

  lemma {:induction false} CountCons(w: string, ws: seq<string>, v: string)
    ensures Count([w] + ws, v) == (if w == v then 1 else 0) + Count(ws, v)
  {
    if ws == [] {
      assert [w] + ws == [w] && [w][..0] == [];
    } else {
      CountCons(w, ws[..|ws| - 1], v);
      assert ([w] + ws)[..|ws|] == [w] + ws[..|ws| - 1];
    }
  }

  /** Under another first letter the text has one occurrence of its own first word less. */
  lemma {:induction false} TakenByOther(lines: seq<string>, n: nat, r: char)
    requires n <= |lines| && FirstWord(lines, n) != "" && FirstWord(lines, n)[0] != r && !IsBlank(r)
    ensures var w := FirstWord(lines, n);
            Occurrences(Taken(Some(r), lines), n, w) == Occurrences(lines, n, w) - 1
  {
    hide Split, Taken, ReplaceFirst, Count;
    var w, taken := FirstWord(lines, n), Taken(Some(r), lines);
    if Wordless(lines, n - 1) {
      assert w == Split(lines[n - 1])[0];
      assert taken[n - 1] == ReplaceFirst(lines[n - 1], r);
      WordlessOccurrences(lines, n - 1, Some(r), w);
      OtherFirstLetter(lines[n - 1], r);
    } else {
      assert taken[n - 1] == lines[n - 1];
      TakenByOther(lines, n - 1, r);
    }
  }

  lemma {:induction false} OtherFirstLetter(line: string, r: char)
    requires Split(line) != [] && !IsBlank(r)
    ensures Split(line)[0] != ""
    ensures var w := Split(line)[0];
            w[0] != r ==> Count(Split(ReplaceFirst(line, r)), w) == Count(Split(line), w) - 1
  {
    var ws := Split(line);
    ReplaceFirstSplit(line, r);
    var w, w' := ws[0], [r] + ws[0][1..];
    assert w'[0] == r;
    assert ws == [w] + ws[1..];
    CountCons(w, ws[1..], w);
    CountCons(w', ws[1..], w);
  }

  lemma {:induction false} WordlessOccurrences(lines: seq<string>, n: nat, rootLetter: Option<char>, v: string)
    requires n <= |lines| && Wordless(lines, n) && (rootLetter.Some? ==> !IsBlank(rootLetter.value))
    ensures Occurrences(lines, n, v) == 0 && Occurrences(Taken(rootLetter, lines), n, v) == 0
  {
    hide Split, Effective, Taken;
    if n > 0 {
      WordlessOccurrences(lines, n - 1, rootLetter, v);
      TakenSplit(rootLetter, lines, n - 1);
    }
  }

  lemma {:induction false} SafeIsUnion(s0: Store, s: Store, lines: seq<string>, n: nat, file: string)
    requires WellFormed(s0) && s0 != [] && n <= |lines| && Continues(s0, s, lines, n, file)
    requires Safe(s0, lines, n)
    ensures PlainUnion(s0, s, lines, n, file)
  {
    var w := FirstWord(lines, n);
    FirstWordNonEmpty(lines, n);
    TakenAsIs(lines);
    forall v ensures Lookup(s, v) == AddLines(Lookup(s0, v), lines, n, v, file) {
      if w == "" {
        WordlessAddsNothing(Lookup(s0, v), None, lines, n, v, file);
      } else {
        LookupAfterDrop(s0, v);
        TakenBySame(lines, n, v, Lookup(s0, v), file);
      }
    }
  }

  lemma {:induction false} UnsafeIsNoUnion(s0: Store, s: Store, lines: seq<string>, n: nat, file: string)
    requires WellFormed(s0) && s0 != [] && n <= |lines| && Continues(s0, s, lines, n, file)
    requires !Safe(s0, lines, n)
    ensures !PlainUnion(s0, s, lines, n, file)
  {
    var w, r := FirstWord(lines, n), s0[0].letter;
    var taken, base := Taken(Some(r), lines), Kept(s0, |w| >= 2);
    assert CellOk(s0, 0);
    if w[0] != r {
      TakenByOther(lines, n, r);
      LookupAfterDrop(s0, w);
      AddLinesTotal(Lookup(base, w), taken, n, w, file);
      AddLinesTotal(Lookup(s0, w), lines, n, w, file);
      assert Lookup(s, w) != AddLines(Lookup(s0, w), lines, n, w, file);
    } else {
      var v :| |v| >= 2 && v[0] == r && Lookup(s0, v) != [];
      LookupAfterDrop(s0, v);
      TakenBySame(lines, n, v, [], file);
      AddLinesTotal([], lines, n, v, file);
      AddLinesTotal(Lookup(s0, v), lines, n, v, file);
      assert CellOk(s0, Walk(s0, 0, v).at);
      PositiveTotal(Lookup(s0, v));
      assert Lookup(s, v) != AddLines(Lookup(s0, v), lines, n, v, file);
    }
  }

  /** A later text is simply added exactly when it is safe; and one without words changes nothing. */
  lemma {:induction false} UnionExactlyWhenSafe(s0: Store, s: Store, lines: seq<string>, n: nat, file: string)
    requires WellFormed(s0) && s0 != [] && n <= |lines| && Continues(s0, s, lines, n, file)
    ensures PlainUnion(s0, s, lines, n, file) <==> Safe(s0, lines, n)
    ensures Wordless(lines, n) ==> SameLookups(s0, s)
  {
    if Safe(s0, lines, n) {
      SafeIsUnion(s0, s, lines, n, file);
    } else {
      UnsafeIsNoUnion(s0, s, lines, n, file);
    }
  }

  /** For instance: added to a trie whose root is 'c', the text "dog" gives "dog" no posting and "cog" one. */
  lemma {:induction false} DogIsTakenForCog(s0: Store, s: Store, file: string)
    requires WellFormed(s0) && s0 != [] && s0[0].letter == 'c' && Continues(s0, s, ["dog"], 1, file)
    ensures Lookup(s, "dog") == Lookup(s0, "dog")
    ensures Lookup(s, "cog") == [Posting(0, file, 1)]
    ensures !PlainUnion(s0, s, ["dog"], 1, file)
  {
    hide Split, AddLines, Taken;
    var lines := ["dog"];
    OneWord("dog");
    TakenDog();
    LookupAfterDrop(s0, "dog");
    LookupAfterDrop(s0, "cog");
    var base := Kept(s0, true);
    assert FirstWord(lines, 1) == "dog";
    OneWordLine(Lookup(base, "dog"), "cog", "dog", file);
    OneWordLine(Lookup(base, "cog"), "cog", "cog", file);
    UnionExactlyWhenSafe(s0, s, lines, 1, file);
  }

  lemma {:induction false} TakenDog()
    ensures Taken(Some('c'), ["dog"]) == ["cog"]
  {
    assert ReplaceFirst("dog", 'c') == ['c'] + "dog"[1..] == "cog";
  }

  lemma {:induction false} OneWordLine(ps: seq<Posting>, w: string, v: string, file: string)
    requires |w| == 3 && forall i :: 0 <= i < 3 ==> !IsBlank(w[i])
    ensures AddLines(ps, [w], 1, v, file) == if v == w then AddPosting(ps, 0, file) else ps
  {
    OneWord(w);
    assert AddLines(ps, [w], 0, v, file) == ps;
    AddWordsSnoc(ps, [], w, v, 0, file);
    assert [] + [w] == [w];
  }

  lemma {:induction false} OneWord(w: string)
    requires |w| == 3 && forall i :: 0 <= i < 3 ==> !IsBlank(w[i])
    ensures Split(w) == [w]
  {
    assert RunLength(w) == 3;
    assert w[..3] == w && w[3..] == "";
  }
}
