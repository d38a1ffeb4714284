/** What the builder has done to the trie part way through a line, and that each of its steps keeps this up. */
module LineProgress {
  import opened Wrappers
  import opened Words
  import opened Postings
  import opened TrieStore

  /** Letters so far in the first word of the line. */
  function FirstLength(q: Scan): nat {
    if q.finished != [] then |q.finished[0]| else |q.partial|
  }

  /** `first` says that no letter of the whole text came before this line. The words finished so far have been added
      to `s0`, which has lost its root's continuation if the very first word of the text has reached two letters. */
  ghost predicate Progress(s0: Store, s: Store, first: bool, q: Scan, id: int, file: string)
    requires WellFormed(s0)
  {
    var base := Kept(s0, first && FirstLength(q) >= 2);
    && WellFormed(s)
    && (forall v :: Lookup(s, v) == AddWords(Lookup(base, v), q.finished, v, id, file))
    && TotalFrequency(s) == TotalFrequency(s0) + |q.finished|
    && ((!first || s0 == []) && Exact(s0) ==> Exact(s))
    && (OneLetter(first, q) ==> s == s0 || (s0 == [] && s == NewRoot(q.partial[0])))
  }

  /** Exactly the first letter of the first word of the text has been read. */
  predicate OneLetter(first: bool, q: Scan) {
    first && q.finished == [] && |q.partial| == 1
  }

  /** The first letter of the text is taken to be the letter of the root, which is made for it if there is none. */
  lemma {:induction false} ProgressRoot(s0: Store, c: char, id: int, file: string)
    requires WellFormed(s0) && !IsBlank(c)
    ensures s0 == [] ==> Progress(s0, NewRoot(c), true, ScanChar(START, c), id, file)
    ensures s0 == [] ==> Walk(NewRoot(c), 0, [c]) == Found(0)
    ensures s0 != [] && c == s0[0].letter ==> Progress(s0, s0, true, ScanChar(START, c), id, file)
    ensures s0 != [] && c == s0[0].letter ==> Walk(s0, 0, [c]) == Found(0)
  {
  }

  lemma {:induction false} ProgressLetter(s0: Store, s: Store, t: Store, first: bool, q: Scan, c: char, drop: bool,
                                          id: int, file: string)
    requires WellFormed(s0) && Progress(s0, s, first, q, id, file) && !IsBlank(c)
    requires first && q.finished == [] ==> q.partial != ""
    requires if OneLetter(first, q) then drop else Kept(s, drop) == s
    requires TotalFrequency(Kept(s, drop)) == TotalFrequency(s)
    requires t == Kept(s, drop) || Grown(Kept(s, drop), t, q.partial + [c])
    ensures Progress(s0, t, first, ScanChar(q, c), id, file)
  {
    var q', base := ScanChar(q, c), Kept(s, drop);
    assert WellFormed(t) && SameLookups(base, t);
    if OneLetter(first, q) {
      assert q'.finished == [] && FirstLength(q') == 2;
      if s == s0 {
        assert forall v :: Lookup(t, v) == Lookup(Kept(s0, true), v);
      } else {
        assert base == s;
        assert forall v :: Lookup(Kept(s0, true), v) == [];
      }
      assert s0 == [] ==> base == s;
    } else {
      assert first && FirstLength(q) >= 2 <==> first && FirstLength(q') >= 2;
    }
    assert !OneLetter(first, q');
  }

  lemma {:induction false} ProgressWord(s0: Store, s: Store, t: Store, first: bool, q: Scan, id: int, file: string)
    requires WellFormed(s0) && Progress(s0, s, first, q, id, file) && q.partial != ""
    requires Counted(s, t, q.partial, id, file)
    ensures Progress(s0, t, first, Scan(Flush(q), ""), id, file)
  {
    hide Lookup, Exact, TotalFrequency, AddPosting, WellFormed;
    var base := Kept(s0, first && FirstLength(q) >= 2);
    forall v ensures Lookup(t, v) == AddWords(Lookup(base, v), Flush(q), v, id, file) {
      AddWordsSnoc(Lookup(base, v), q.finished, q.partial, v, id, file);
    }
  }

  // ---- The first letter of the text ----

  /** A line as the builder takes it: while no letter has been read, the first one passes for that of the root. */
  function Effective(rootLetter: Option<char>, line: string): (eff: string)
    ensures |eff| == |line|
  {
    if rootLetter.Some? then ReplaceFirst(line, rootLetter.value) else line
  }

  /** From character `j` on the builder will take `line` for `eff`; `waiting` while it has met no letter. */
  ghost predicate TakenAs(line: string, eff: string, j: nat, rootLetter: Option<char>, waiting: bool) {
    && |eff| == |line|
    && (waiting ==> eff == Effective(rootLetter, line) && forall k :: 0 <= k < j && k < |line| ==> IsBlank(line[k]))
    && (!waiting ==> forall k :: j <= k < |line| ==> eff[k] == line[k])
  }

  lemma {:induction false} TakeChar(line: string, eff: string, j: nat, rootLetter: Option<char>, waiting: bool)
    requires j < |line| && TakenAs(line, eff, j, rootLetter, waiting)
    requires rootLetter.Some? ==> !IsBlank(rootLetter.value)
    ensures IsBlank(eff[j]) <==> IsBlank(line[j])
    ensures !IsBlank(line[j]) ==> eff[j] == if waiting && rootLetter.Some? then rootLetter.value else line[j]
    ensures TakenAs(line, eff, j + 1, rootLetter, waiting && IsBlank(line[j]))
  {
    if waiting && rootLetter.Some? {
      ReplaceFirstBlanks(line, rootLetter.value, j);
      if !IsBlank(line[j]) {
        ReplaceFirstAt(line, rootLetter.value, j);
      }
    }
  }

  /** What has been read of a line when the builder comes to character `j`; the last word is closed with the line. */
  function AtChar(line: string, j: nat): Scan
    requires j <= |line|
  {
    if j < |line| then ScanFrom(START, line[..j]) else Scan(Flush(ScanFrom(START, line)), "")
  }

  lemma {:induction false} AtCharStep(line: string, j: nat)
    requires j < |line|
    ensures AtChar(line, 0) == START
    ensures var q := ScanChar(AtChar(line, j), line[j]);
            AtChar(line, j + 1) == if j + 1 == |line| then Scan(Flush(q), "") else q
  {
    ScanSnoc(START, line, j);
    assert line[..|line|] == line;
  }

  lemma {:induction false} AtCharEnd(line: string)
    ensures AtChar(line, |line|) == Scan(Split(line), "")
  {
    ScanIsSplit(START, line);
    assert [] + Split(line) == Split(line);
  }
}
