/** Posting lists: what the builder does to one, and the per-line frequencies it must amount to. */
module Postings {
  import opened Sums
  import opened Words

  datatype Posting = Posting(textId: int, file: string, wordFrq: int)

  /** One more occurrence in line `id` of `file`: count it where that line is listed, else list it last. */
  function AddPosting(ps: seq<Posting>, id: int, file: string): seq<Posting> {
    if ps == [] then [Posting(id, file, 1)]
    else if ps[0].textId == id && ps[0].file == file then [ps[0].(wordFrq := ps[0].wordFrq + 1)] + ps[1..]
    else [ps[0]] + AddPosting(ps[1..], id, file)
  }

  predicate Lists(ps: seq<Posting>, k: nat, id: int, file: string)
    requires k < |ps|
  {
    ps[k].textId == id && ps[k].file == file
  }

  lemma {:induction false} AddPostingAt(ps: seq<Posting>, k: nat, id: int, file: string)
    requires k < |ps| && Lists(ps, k, id, file)
    requires forall i :: 0 <= i < k ==> !Lists(ps, i, id, file)
    ensures AddPosting(ps, id, file) == ps[k := ps[k].(wordFrq := ps[k].wordFrq + 1)]
  {
    if k > 0 {
      assert !Lists(ps, 0, id, file);
      forall i | 0 <= i < k - 1 ensures !Lists(ps[1..], i, id, file) {
        assert !Lists(ps, i + 1, id, file);
      }
      assert Lists(ps[1..], k - 1, id, file);
      AddPostingAt(ps[1..], k - 1, id, file);
    }
  }

  lemma {:induction false} AddPostingNew(ps: seq<Posting>, id: int, file: string)
    requires forall i :: 0 <= i < |ps| ==> !Lists(ps, i, id, file)
    ensures AddPosting(ps, id, file) == ps + [Posting(id, file, 1)]
  {
    if ps != [] {
      assert !Lists(ps, 0, id, file);
      forall i | 0 <= i < |ps| - 1 ensures !Lists(ps[1..], i, id, file) {
        assert !Lists(ps, i + 1, id, file);
      }
      AddPostingNew(ps[1..], id, file);
    }
  }

  /** Adding every occurrence of `v` among the words `ws` of line `id`. */
  function AddWords(ps: seq<Posting>, ws: seq<string>, v: string, id: int, file: string): seq<Posting> {
    if ws == [] then ps
    else
      var before := AddWords(ps, ws[..|ws| - 1], v, id, file);
      if ws[|ws| - 1] == v then AddPosting(before, id, file) else before
  }

  lemma {:induction false} AddWordsSnoc(ps: seq<Posting>, ws: seq<string>, w: string, v: string, id: int, file: string)
    ensures AddWords(ps, ws + [w], v, id, file) ==
            var before := AddWords(ps, ws, v, id, file);
            if w == v then AddPosting(before, id, file) else before
  {
  }

  /** Adding the words of the first `n` lines, line `i` under text id `i`. */
  function AddLines(ps: seq<Posting>, lines: seq<string>, n: nat, v: string, file: string): seq<Posting>
    requires n <= |lines|
  {
    if n == 0 then ps
    else AddWords(AddLines(ps, lines, n - 1, v, file), Split(lines[n - 1]), v, n - 1, file)
  }

  /** The reference: for each line that has `v`, in order, how often it has it. */
  function Frequencies(lines: seq<string>, n: nat, v: string, file: string): seq<Posting>
    requires n <= |lines|
  {
    if n == 0 then []
    else
      var f := Count(Split(lines[n - 1]), v);
      Frequencies(lines, n - 1, v, file) + if f > 0 then [Posting(n - 1, file, f)] else []
  }

  ghost predicate FreeOf(ps: seq<Posting>, id: int, file: string) {
    forall i :: 0 <= i < |ps| ==> !Lists(ps, i, id, file)
  }

  lemma {:induction false} AddWordsCounts(ps: seq<Posting>, ws: seq<string>, v: string, id: int, file: string)
    requires FreeOf(ps, id, file)
    ensures AddWords(ps, ws, v, id, file) ==
            ps + if Count(ws, v) > 0 then [Posting(id, file, Count(ws, v))] else []
  {
    if ws != [] {
      var init := ws[..|ws| - 1];
      AddWordsCounts(ps, init, v, id, file);
      if ws[|ws| - 1] == v {
        var f := Count(init, v);
        if f == 0 {
          assert ps + [] == ps;
          AddPostingNew(ps, id, file);
        } else {
          var before := ps + [Posting(id, file, f)];
          forall i | 0 <= i < |ps| ensures !Lists(before, i, id, file) {
            assert !Lists(ps, i, id, file);
          }
          assert Lists(before, |ps|, id, file);
          AddPostingAt(before, |ps|, id, file);
        }
      }
    }
  }

  /** A list of lines of `file` below `n`, ascending, each with the number of times its line has `v`, never zero. */
  ghost predicate IsFrequencyList(fs: seq<Posting>, lines: seq<string>, n: nat, v: string, file: string)
    requires n <= |lines|
  {
    && (forall k :: 0 <= k < |fs| ==> 0 <= fs[k].textId < n && fs[k].file == file)
    && (forall k :: 0 <= k < |fs| ==> fs[k].wordFrq == Count(Split(lines[fs[k].textId]), v) > 0)
    && (forall j, k :: 0 <= j < k < |fs| ==> fs[j].textId < fs[k].textId)
  }

  lemma {:induction false} NextFrequency(fs: seq<Posting>, lines: seq<string>, n: nat, v: string, file: string)
    requires n < |lines| && IsFrequencyList(fs, lines, n, v, file)
    ensures IsFrequencyList(fs, lines, n + 1, v, file)
    ensures var f := Count(Split(lines[n]), v);
            f > 0 ==> IsFrequencyList(fs + [Posting(n, file, f)], lines, n + 1, v, file)
  {
  }

  lemma {:induction false} FrequenciesAscend(lines: seq<string>, n: nat, v: string, file: string)
    requires n <= |lines|
    ensures IsFrequencyList(Frequencies(lines, n, v, file), lines, n, v, file)
  {
    hide IsFrequencyList, Split, Count;
    if n > 0 {
      FrequenciesAscend(lines, n - 1, v, file);
      NextFrequency(Frequencies(lines, n - 1, v, file), lines, n - 1, v, file);
      assert Frequencies(lines, n - 1, v, file) + [] == Frequencies(lines, n - 1, v, file);
    } else {
      NoFrequency(lines, v, file);
    }
  }

  lemma {:induction false} NoFrequency(lines: seq<string>, v: string, file: string)
    ensures IsFrequencyList([], lines, 0, v, file)
  {
  }

  /** No line of the file is missing: a line that has `v` is listed. */
  lemma {:induction false} FrequenciesComplete(lines: seq<string>, n: nat, v: string, file: string, i: nat)
    requires i < n <= |lines|
    requires Count(Split(lines[i]), v) > 0
    ensures Posting(i, file, Count(Split(lines[i]), v)) in Frequencies(lines, n, v, file)
  {
    if i < n - 1 {
      FrequenciesComplete(lines, n - 1, v, file, i);
    }
  }

  /** Incremental posting updates amount to the per-line frequencies, after whatever other files had left. */
  lemma {:induction false} AddLinesCounts(ps: seq<Posting>, lines: seq<string>, n: nat, v: string, file: string)
    requires n <= |lines|
    requires forall k :: 0 <= k < |ps| ==> ps[k].file != file
    ensures AddLines(ps, lines, n, v, file) == ps + Frequencies(lines, n, v, file)
  {
    if n > 0 {
      AddLinesCounts(ps, lines, n - 1, v, file);
      FrequenciesAscend(lines, n - 1, v, file);
      AddWordsCounts(ps + Frequencies(lines, n - 1, v, file), Split(lines[n - 1]), v, n - 1, file);
    }
  }

  function Frequency(p: Posting): int {
    p.wordFrq
  }

  /** Total frequency of a posting list. */
  function Total(ps: seq<Posting>): int {
    Sum(ps, Frequency)
  }

  lemma {:induction false} AddPostingTotal(ps: seq<Posting>, id: int, file: string)
    ensures Total(AddPosting(ps, id, file)) == Total(ps) + 1
  {
    if ps != [] {
      assert ps == [ps[0]] + ps[1..];
      SumCons(ps[0], ps[1..], Frequency);
      SumCons(ps[0].(wordFrq := ps[0].wordFrq + 1), ps[1..], Frequency);
      SumCons(ps[0], AddPosting(ps[1..], id, file), Frequency);
      AddPostingTotal(ps[1..], id, file);
    }
  }

  ghost predicate Positive(ps: seq<Posting>) {
    forall k :: 0 <= k < |ps| ==> ps[k].wordFrq >= 1
  }

  lemma {:induction false} AddPostingPositive(ps: seq<Posting>, id: int, file: string)
    requires Positive(ps)
    ensures Positive(AddPosting(ps, id, file))
  {
    if ps != [] {
      AddPostingPositive(ps[1..], id, file);
    }
  }

  lemma {:induction false} PositiveTotal(ps: seq<Posting>)
    requires Positive(ps)
    ensures Total(ps) >= |ps|
  {
    if ps != [] {
      PositiveTotal(ps[..|ps| - 1]);
    }
  }

  /** How often `v` occurs in the first `n` lines. */
  function Occurrences(lines: seq<string>, n: nat, v: string): nat
    requires n <= |lines|
  {
    if n == 0 then 0 else Occurrences(lines, n - 1, v) + Count(Split(lines[n - 1]), v)
  }

  lemma {:induction false} AddWordsTotal(ps: seq<Posting>, ws: seq<string>, v: string, id: int, file: string)
    ensures Total(AddWords(ps, ws, v, id, file)) == Total(ps) + Count(ws, v)
  {
    if ws != [] {
      AddWordsTotal(ps, ws[..|ws| - 1], v, id, file);
      AddPostingTotal(AddWords(ps, ws[..|ws| - 1], v, id, file), id, file);
    }
  }

  /** The frequencies of a word grow by exactly its occurrences. */
  lemma {:induction false} AddLinesTotal(ps: seq<Posting>, lines: seq<string>, n: nat, v: string, file: string)
    requires n <= |lines|
    ensures Total(AddLines(ps, lines, n, v, file)) == Total(ps) + Occurrences(lines, n, v)
  {
    if n > 0 {
      AddLinesTotal(ps, lines, n - 1, v, file);
      AddWordsTotal(AddLines(ps, lines, n - 1, v, file), Split(lines[n - 1]), v, n - 1, file);
    }
  }
}
