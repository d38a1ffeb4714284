/** How the index builder cuts a line into words, and the naive split it must agree with. */
module Words {

  predicate IsBlank(c: char) {
    c == ' ' || c == '\t'
  }

  /** Length of the run of word characters at the front of `s`. */
  function RunLength(s: string): (n: nat)
    ensures n <= |s|
    ensures forall i :: 0 <= i < n ==> !IsBlank(s[i])
    ensures n < |s| ==> IsBlank(s[n])
  {
    if s == "" || IsBlank(s[0]) then 0 else 1 + RunLength(s[1..])
  }

  lemma {:induction false} RunLengthIs(s: string, n: nat)
    requires n <= |s| && (forall i :: 0 <= i < n ==> !IsBlank(s[i])) && (n < |s| ==> IsBlank(s[n]))
    ensures RunLength(s) == n
  {
  }

  /** The naive split: the maximal runs of word characters, in order. */
  function Split(s: string): seq<string>
    decreases |s|
  {
    if s == "" then []
    else if IsBlank(s[0]) then Split(s[1..])
    else [s[..RunLength(s)]] + Split(s[RunLength(s)..])
  }

  /** The split in plain terms: a run of characters other than space and tab is a word where one of these follows it,
      or the line ends. */
  lemma {:induction false} SplitOnSpaceAndTab(w: string, sep: char, rest: string)
    requires ' ' !in w && '\t' !in w && (sep == ' ' || sep == '\t')
    ensures Split("") == []
    ensures Split([sep] + rest) == Split(rest)
    ensures w != "" ==> Split(w) == [w] && Split(w + [sep] + rest) == [w] + Split(rest)
  {
    assert ([sep] + rest)[1..] == rest;
    if w != "" {
      RunAlone(w, "");
      RunAlone(w, [sep] + rest);
      assert w + "" == w && w + [sep] + rest == w + ([sep] + rest);
    }
  }

  lemma {:induction false} RunAlone(w: string, rest: string)
    requires w != "" && ' ' !in w && '\t' !in w && (rest == "" || rest[0] == ' ' || rest[0] == '\t')
    ensures Split(w + rest) == [w] + Split(rest)
  {
    var s := w + rest;
    forall i | 0 <= i < |w| ensures !IsBlank(s[i]) {
      assert w[i] in w;
    }
    RunLengthIs(s, |w|);
    assert s[..|w|] == w && s[|w|..] == rest;
  }

  // ---- What the builder knows part way through a line ----

  /** Words finished so far, and the letters of the word being read. */
  datatype Scan = Scan(finished: seq<string>, partial: string)

  const START := Scan([], "")

  function ScanChar(q: Scan, c: char): Scan {
    if !IsBlank(c) then Scan(q.finished, q.partial + [c]) else Scan(Flush(q), "")
  }

  function Flush(q: Scan): seq<string> {
    if q.partial == "" then q.finished else q.finished + [q.partial]
  }

  function ScanFrom(q: Scan, s: string): Scan
    decreases |s|
  {
    if s == "" then q else ScanFrom(ScanChar(q, s[0]), s[1..])
  }

  lemma {:induction false} ScanSnoc(q: Scan, s: string, j: nat)
    requires j < |s|
    ensures ScanFrom(q, s[..j + 1]) == ScanChar(ScanFrom(q, s[..j]), s[j])
    decreases j
  {
    if j > 0 {
      var first := ScanChar(q, s[0]);
      assert s[..j + 1][1..] == s[1..][..j] && s[..j][1..] == s[1..][..j - 1];
      ScanSnoc(first, s[1..], j - 1);
    }
  }

  /** Reading a line character by character and closing the last word at its end is the naive split. */
  lemma {:induction false} ScanIsSplit(q: Scan, s: string)
    ensures Flush(ScanFrom(q, s)) ==
            if q.partial == "" then q.finished + Split(s)
            else q.finished + [q.partial + s[..RunLength(s)]] + Split(s[RunLength(s)..])
    decreases |s|
  {
    if s == "" {
      assert q.partial + s[..0] == q.partial;
    } else {
      var q' := ScanChar(q, s[0]);
      ScanIsSplit(q', s[1..]);
      assert ScanFrom(q, s) == ScanFrom(q', s[1..]);
      var n := RunLength(s);
      if IsBlank(s[0]) {
        assert s[n..] == s;
        assert q.partial + s[..n] == q.partial;
      } else {
        assert s[1..][..n - 1] == s[..n][1..];
        assert [s[0]] + s[1..][..n - 1] == s[..n];
        assert q.partial + [s[0]] + s[1..][..n - 1] == q.partial + s[..n];
        assert s[1..][n - 1..] == s[n..];
        if q.partial == "" {
          assert ScanFrom(q', s[1..]) == ScanFrom(q, s);
          assert q'.partial == [s[0]];
          assert q'.partial + s[1..][..RunLength(s[1..])] == s[..n];
          assert Flush(ScanFrom(q, s)) == q.finished + [s[..n]] + Split(s[n..]);
          assert q.finished + ([s[..n]] + Split(s[n..])) == q.finished + [s[..n]] + Split(s[n..]);
        }
      }
    }
  }

  /** Every word of the split is a non-empty run without blanks. */
  lemma {:induction false} SplitWords(s: string, w: string)
    requires w in Split(s)
    ensures w != "" && forall i :: 0 <= i < |w| ==> !IsBlank(w[i])
    decreases |s|
  {
    if IsBlank(s[0]) {
      SplitWords(s[1..], w);
    } else if w != s[..RunLength(s)] {
      SplitWords(s[RunLength(s)..], w);
    }
  }

  /** How often `w` occurs among `ws`. */
  function Count(ws: seq<string>, w: string): nat {
    if ws == [] then 0 else Count(ws[..|ws| - 1], w) + if ws[|ws| - 1] == w then 1 else 0
  }

  lemma {:induction false} CountIsMultiplicity(ws: seq<string>, w: string)
    ensures Count(ws, w) == multiset(ws)[w]
  {
    if ws != [] {
      CountIsMultiplicity(ws[..|ws| - 1], w);
      assert ws == ws[..|ws| - 1] + [ws[|ws| - 1]];
    }
  }

  // ---- Replacing the first word character, as a non-empty trie does ----

  function ReplaceFirst(s: string, r: char): (t: string)
    ensures |t| == |s|
  {
    if s == "" then "" else if IsBlank(s[0]) then [s[0]] + ReplaceFirst(s[1..], r) else [r] + s[1..]
  }

  /** Up to its first word character a line has produced nothing, and there only that character changes. */
  lemma {:induction false} ReplaceFirstAt(s: string, r: char, j: nat)
    requires j < |s|
    requires forall i :: 0 <= i < j ==> IsBlank(s[i])
    requires !IsBlank(s[j])
    ensures ReplaceFirst(s, r) == s[j := r]
  {
    if j > 0 {
      ReplaceFirstAt(s[1..], r, j - 1);
      assert [s[0]] + s[1..][j - 1 := r] == s[j := r];
    } else {
      assert [r] + s[1..] == s[0 := r];
    }
  }

  /** In plain terms. */
  lemma {:induction false} ReplaceFirstPlainly(blanks: string, c: char, rest: string, r: char)
    requires forall i :: 0 <= i < |blanks| ==> blanks[i] == ' ' || blanks[i] == '\t'
    requires c != ' ' && c != '\t'
    ensures ReplaceFirst(blanks, r) == blanks
    ensures ReplaceFirst(blanks + [c] + rest, r) == blanks + [r] + rest
  {
    AllBlank(blanks);
    var s := blanks + [c] + rest;
    assert s[|blanks|] == c;
    assert forall i :: 0 <= i < |blanks| ==> s[i] == blanks[i];
    ReplaceFirstAt(s, r, |blanks|);
    assert s[|blanks| := r] == blanks + [r] + rest;
  }

  lemma {:induction false} ReplaceFirstBlanks(s: string, r: char, i: nat)
    requires i < |s| && !IsBlank(r)
    ensures IsBlank(ReplaceFirst(s, r)[i]) <==> IsBlank(s[i])
  {
    if IsBlank(s[0]) && i > 0 {
      ReplaceFirstBlanks(s[1..], r, i - 1);
    }
  }

  lemma {:induction false} AllBlank(s: string)
    requires forall i :: 0 <= i < |s| ==> IsBlank(s[i])
    ensures Split(s) == []
    ensures forall r :: ReplaceFirst(s, r) == s
  {
    if s != "" {
      AllBlank(s[1..]);
    }
  }

  /** Replacing the first letter changes the first word only, and only its first letter. */
  lemma {:induction false} ReplaceFirstSplit(s: string, r: char)
    requires !IsBlank(r)
    ensures Split(s) == [] ==> ReplaceFirst(s, r) == s
    ensures Split(s) != [] ==>
              var ws := Split(s);
              ws[0] != "" && Split(ReplaceFirst(s, r)) == [[r] + ws[0][1..]] + ws[1..]
  {
    if s != "" {
      var t := ReplaceFirst(s, r);
      if IsBlank(s[0]) {
        ReplaceFirstSplit(s[1..], r);
        assert t[1..] == ReplaceFirst(s[1..], r);
      } else {
        var n := RunLength(s);
        assert t[1..] == s[1..];
        assert RunLength(t) == n;
        assert t[..n] == [r] + s[..n][1..];
        assert t[n..] == s[n..];
        assert Split(s)[1..] == Split(s[n..]);
      }
    }
  }
}
