/** The value of a trie at one moment: its nodes in the order they were made, each with its links as positions in
    that order. `Trie` keeps such a store beside the real nodes; here is what a link made at the end of a failed
    walk does to every lookup. */
module TrieStore {
  import opened Sums
  import opened Words
  import opened Postings

  const NIL := -1

  /** `path` is the spelling a node was made for: the letters of its ancestors and its own. */
  datatype Cell = Cell(letter: char, next: int, cont: int, index: seq<Posting>, path: string)

  type Store = seq<Cell>

  function Front(s: string): string
    requires s != ""
  {
    s[..|s| - 1]
  }

  predicate LinkOk(s: Store, k: nat, to: int) {
    to == NIL || k < to < |s|
  }

  /** Links lead to younger nodes (so there is no cycle) and spell what they should. */
  ghost predicate CellOk(s: Store, k: nat)
    requires k < |s|
  {
    && LinkOk(s, k, s[k].next)
    && LinkOk(s, k, s[k].cont)
    && !IsBlank(s[k].letter)
    && Positive(s[k].index)
    && s[k].path != "" && s[k].path[|s[k].path| - 1] == s[k].letter
    && (s[k].next != NIL ==> s[s[k].next].path == Front(s[k].path) + [s[s[k].next].letter])
    && (s[k].cont != NIL ==> s[s[k].cont].path == s[k].path + [s[s[k].cont].letter])
  }

  ghost predicate WellFormed(s: Store) {
    && (|s| > 0 ==> s[0].path == [s[0].letter])
    && forall k :: 0 <= k < |s| ==> CellOk(s, k)
  }

  // ---- Walking ----

  /** Where a walk ends: on the node of the last letter; on the last sibling, none having the next letter;
      or on a node that has no continuation. */
  datatype Arrival = Found(at: nat) | NoSibling(at: nat, rest: string) | NoChild(at: nat, rest: string)

  ghost function Walk(s: Store, k: nat, w: string): (a: Arrival)
    requires WellFormed(s) && k < |s| && w != ""
    ensures a.at < |s|
    ensures a.Found? || a.rest != ""
    ensures a.NoSibling? ==> s[a.at].next == NIL && s[a.at].letter != a.rest[0]
    ensures a.NoChild? ==> s[a.at].cont == NIL
    decreases |s| - k
  {
    assert CellOk(s, k);
    if s[k].letter == w[0] then
      if |w| == 1 then Found(k)
      else if s[k].cont == NIL then NoChild(k, w[1..])
      else Walk(s, s[k].cont, w[1..])
    else if s[k].next == NIL then NoSibling(k, w)
    else Walk(s, s[k].next, w)
  }

  /** What the trie answers for a word: the index of its node, or nothing. */
  ghost function Lookup(s: Store, w: string): seq<Posting>
    requires WellFormed(s)
  {
    if s == [] || w == "" then []
    else
      var a := Walk(s, 0, w);
      if a.Found? then s[a.at].index else []
  }

  /** The node a walk ends on was made for the letters walked. */
  ghost predicate Spells(s: Store, k: nat, w: string, a: Arrival)
    requires WellFormed(s) && k < |s| && a.at < |s|
  {
    assert CellOk(s, k) && CellOk(s, a.at);
    var whole := Front(s[k].path) + w;
    match a
    case Found(m) => s[m].path == whole
    case NoSibling(m, rest) => Front(s[m].path) + rest == whole
    case NoChild(m, rest) => s[m].path + rest == whole
  }

  lemma {:induction false} WalkSpells(s: Store, k: nat, w: string)
    requires WellFormed(s) && k < |s| && w != ""
    ensures Spells(s, k, w, Walk(s, k, w))
    decreases |s| - k
  {
    assert CellOk(s, k);
    assert s[k].path == Front(s[k].path) + [s[k].letter];
    assert w == [w[0]] + w[1..];
    if s[k].letter == w[0] {
      assert Front(s[k].path) + w == s[k].path + w[1..];
      if |w| > 1 && s[k].cont != NIL {
        var c := s[k].cont;
        assert CellOk(s, c);
        assert Front(s[c].path) == s[k].path;
        WalkSpells(s, c, w[1..]);
      } else if |w| == 1 {
        assert Front(s[k].path) + w == s[k].path;
      }
    } else if s[k].next != NIL {
      var n := s[k].next;
      assert CellOk(s, n);
      assert Front(s[n].path) == Front(s[k].path);
      WalkSpells(s, n, w);
    }
  }

  /** A walk from the root ends on a node only for the word the node was made for. */
  lemma {:induction false} FoundSpells(s: Store, w: string)
    requires WellFormed(s) && s != [] && w != ""
    requires Walk(s, 0, w).Found?
    ensures s[Walk(s, 0, w).at].path == w
  {
    WalkSpells(s, 0, w);
    assert CellOk(s, 0);
    assert Front(s[0].path) + w == w;
  }

  /** After the letters `p`, a longer walk goes on from the node of `p`. */
  lemma {:induction false} WalkOn(s: Store, k: nat, p: string, u: string)
    requires WellFormed(s) && k < |s| && p != "" && u != ""
    requires Walk(s, k, p).Found?
    ensures var m := Walk(s, k, p).at; LinkOk(s, m, s[m].cont)
    ensures var m := Walk(s, k, p).at;
            Walk(s, k, p + u) == if s[m].cont == NIL then NoChild(m, u) else Walk(s, s[m].cont, u)
    decreases |s| - k
  {
    assert CellOk(s, k);
    assert (p + u)[0] == p[0];
    if s[k].letter == p[0] {
      assert (p + u)[1..] == p[1..] + u;
      if |p| > 1 {
        WalkOn(s, s[k].cont, p[1..], u);
      } else {
        assert p[1..] + u == u;
      }
    } else {
      WalkOn(s, s[k].next, p, u);
    }
  }

  // ---- Making nodes ----

  function AddSibling(s: Store, k: nat, c: char): Store
    requires k < |s| && s[k].path != ""
  {
    s[k := s[k].(next := |s|)] + [Cell(c, NIL, NIL, [], Front(s[k].path) + [c])]
  }

  function AddChild(s: Store, k: nat, c: char): Store
    requires k < |s|
  {
    s[k := s[k].(cont := |s|)] + [Cell(c, NIL, NIL, [], s[k].path + [c])]
  }

  function NewRoot(c: char): Store {
    [Cell(c, NIL, NIL, [], [c])]
  }

  /** What assigning a fresh child over the root's `cont` loses. */
  function DropChild(s: Store): Store {
    if s == [] then s else s[0 := s[0].(cont := NIL)]
  }

  function SetIndex(s: Store, k: nat, ps: seq<Posting>): Store
    requires k < |s|
  {
    s[k := s[k].(index := ps)]
  }

  lemma {:induction false} AddSiblingOk(s: Store, k: nat, c: char)
    requires WellFormed(s) && k < |s| && !IsBlank(c)
    ensures s[k].path != "" && WellFormed(AddSibling(s, k, c))
  {
    assert CellOk(s, k);
    var t := AddSibling(s, k, c);
    forall i | 0 <= i < |t| ensures CellOk(t, i) {
      if i < |s| {
        assert CellOk(s, i);
      }
    }
  }

  lemma {:induction false} AddChildOk(s: Store, k: nat, c: char)
    requires WellFormed(s) && k < |s| && !IsBlank(c)
    ensures WellFormed(AddChild(s, k, c))
  {
    assert CellOk(s, k);
    var t := AddChild(s, k, c);
    forall i | 0 <= i < |t| ensures CellOk(t, i) {
      if i < |s| {
        assert CellOk(s, i);
      }
    }
  }

  lemma {:induction false} SetIndexOk(s: Store, k: nat, ps: seq<Posting>)
    requires WellFormed(s) && k < |s| && Positive(ps)
    ensures WellFormed(SetIndex(s, k, ps))
  {
    var t := SetIndex(s, k, ps);
    forall i | 0 <= i < |t| ensures CellOk(t, i) {
      assert CellOk(s, i);
    }
  }

  lemma {:induction false} DropChildOk(s: Store)
    requires WellFormed(s)
    ensures WellFormed(DropChild(s))
  {
    var t := DropChild(s);
    forall i | 0 <= i < |t| ensures CellOk(t, i) {
      assert CellOk(s, i);
    }
  }

  /** What a walk becomes once its end has the fresh node `n` of letter `c`: only walks that failed exactly there
      get one step further. */
  function Extended(a: Arrival, here: bool, n: nat, c: char): Arrival
    requires a.Found? || a.rest != ""
  {
    if !here || a.Found? then a
    else if a.rest[0] != c then NoSibling(n, a.rest)
    else if |a.rest| == 1 then Found(n)
    else NoChild(n, a.rest[1..])
  }

  lemma {:induction false} WalkAfterSibling(s: Store, m: nat, c: char, k: nat, w: string)
    requires WellFormed(s) && m < |s| && s[m].next == NIL && !IsBlank(c)
    requires k < |s| && w != ""
    ensures s[m].path != "" && WellFormed(AddSibling(s, m, c))
    ensures var a := Walk(s, k, w);
            Walk(AddSibling(s, m, c), k, w) == Extended(a, a.NoSibling? && a.at == m, |s|, c)
    decreases |s| - k
  {
    AddSiblingOk(s, m, c);
    assert CellOk(s, k);
    var t := AddSibling(s, m, c);
    assert CellOk(t, k) && CellOk(t, |s|);
    assert t[k].letter == s[k].letter && t[k].cont == s[k].cont;
    if s[k].letter == w[0] {
      if |w| > 1 && s[k].cont != NIL {
        WalkAfterSibling(s, m, c, s[k].cont, w[1..]);
      }
    } else if s[k].next != NIL {
      WalkAfterSibling(s, m, c, s[k].next, w);
    } else if k == m {
      assert Walk(t, k, w) == Walk(t, |s|, w);
    }
  }

  lemma {:induction false} WalkAfterChild(s: Store, m: nat, c: char, k: nat, w: string)
    requires WellFormed(s) && m < |s| && s[m].cont == NIL && !IsBlank(c)
    requires k < |s| && w != ""
    ensures WellFormed(AddChild(s, m, c))
    ensures var a := Walk(s, k, w);
            Walk(AddChild(s, m, c), k, w) == Extended(a, a.NoChild? && a.at == m, |s|, c)
    decreases |s| - k
  {
    AddChildOk(s, m, c);
    assert CellOk(s, k);
    var t := AddChild(s, m, c);
    assert CellOk(t, k) && CellOk(t, |s|);
    assert t[k].letter == s[k].letter && t[k].next == s[k].next;
    if s[k].letter == w[0] {
      if |w| > 1 {
        if s[k].cont != NIL {
          WalkAfterChild(s, m, c, s[k].cont, w[1..]);
        } else if k == m {
          assert Walk(t, k, w) == Walk(t, |s|, w[1..]);
        }
      }
    } else if s[k].next != NIL {
      WalkAfterChild(s, m, c, s[k].next, w);
    }
  }

  lemma {:induction false} WalkIgnoresIndex(s: Store, m: nat, ps: seq<Posting>, k: nat, w: string)
    requires WellFormed(s) && m < |s| && k < |s| && w != "" && Positive(ps)
    ensures WellFormed(SetIndex(s, m, ps))
    ensures Walk(SetIndex(s, m, ps), k, w) == Walk(s, k, w)
    decreases |s| - k
  {
    SetIndexOk(s, m, ps);
    assert CellOk(s, k);
    if s[k].letter == w[0] {
      if |w| > 1 && s[k].cont != NIL {
        WalkIgnoresIndex(s, m, ps, s[k].cont, w[1..]);
      }
    } else if s[k].next != NIL {
      WalkIgnoresIndex(s, m, ps, s[k].next, w);
    }
  }

  // ---- Consequences for lookups ----

  /** A fresh sibling changes no lookup. */
  lemma {:induction false} LookupAfterSibling(s: Store, m: nat, c: char)
    requires WellFormed(s) && m < |s| && s[m].next == NIL && !IsBlank(c)
    ensures s[m].path != "" && WellFormed(AddSibling(s, m, c))
    ensures forall v :: Lookup(AddSibling(s, m, c), v) == Lookup(s, v)
  {
    AddSiblingOk(s, m, c);
    forall v ensures Lookup(AddSibling(s, m, c), v) == Lookup(s, v) {
      if v != "" {
        WalkAfterSibling(s, m, c, 0, v);
      }
    }
  }

  /** A fresh child changes no lookup. */
  lemma {:induction false} LookupAfterChild(s: Store, m: nat, c: char)
    requires WellFormed(s) && m < |s| && s[m].cont == NIL && !IsBlank(c)
    ensures WellFormed(AddChild(s, m, c))
    ensures forall v :: Lookup(AddChild(s, m, c), v) == Lookup(s, v)
  {
    AddChildOk(s, m, c);
    forall v ensures Lookup(AddChild(s, m, c), v) == Lookup(s, v) {
      if v != "" {
        WalkAfterChild(s, m, c, 0, v);
      }
    }
  }

  /** Changing the index of the node of `w` changes the answer for `w` and for no other word. */
  lemma {:induction false} LookupAfterIndex(s: Store, w: string, ps: seq<Posting>)
    requires WellFormed(s) && s != [] && w != "" && Positive(ps)
    requires Walk(s, 0, w).Found?
    ensures WellFormed(SetIndex(s, Walk(s, 0, w).at, ps))
    ensures forall v :: Lookup(SetIndex(s, Walk(s, 0, w).at, ps), v) == if v == w then ps else Lookup(s, v)
  {
    var m := Walk(s, 0, w).at;
    SetIndexOk(s, m, ps);
    FoundSpells(s, w);
    forall v ensures Lookup(SetIndex(s, m, ps), v) == if v == w then ps else Lookup(s, v) {
      if v != "" {
        WalkIgnoresIndex(s, m, ps, 0, v);
        if Walk(s, 0, v).Found? {
          FoundSpells(s, v);
        }
      }
    }
  }

  /** Dropping the root's continuation forgets exactly the longer words that begin with the root's letter. */
  lemma {:induction false} LookupAfterDrop(s: Store, v: string)
    requires WellFormed(s)
    ensures WellFormed(DropChild(s))
    ensures Lookup(DropChild(s), v) ==
            if s != [] && |v| >= 2 && v[0] == s[0].letter then [] else Lookup(s, v)
  {
    DropChildOk(s);
    if s != [] && v != "" {
      assert CellOk(s, 0) && CellOk(DropChild(s), 0);
      if s[0].letter != v[0] && s[0].next != NIL {
        WalkAfterDrop(s, s[0].next, v);
      }
    }
  }

  lemma {:induction false} WalkAfterDrop(s: Store, k: nat, w: string)
    requires WellFormed(s) && 0 < k < |s| && w != ""
    ensures WellFormed(DropChild(s)) && Walk(DropChild(s), k, w) == Walk(s, k, w)
    decreases |s| - k
  {
    DropChildOk(s);
    assert CellOk(s, k);
    if s[k].letter == w[0] {
      if |w| > 1 && s[k].cont != NIL {
        WalkAfterDrop(s, s[k].cont, w[1..]);
      }
    } else if s[k].next != NIL {
      WalkAfterDrop(s, s[k].next, w);
    }
  }

  /** The store a later text starts from: as it was, or with the root's continuation lost. */
  ghost function Kept(s: Store, drop: bool): (t: Store)
    requires WellFormed(s)
    ensures WellFormed(t) && |t| == |s|
  {
    DropChildOk(s);
    if drop then DropChild(s) else s
  }

  // ---- Shape: every node is where its spelling leads ----

  /** No node is lost and no two nodes answer to one spelling: in particular the letters along a sibling chain
      differ. */
  ghost predicate Exact(s: Store)
    requires WellFormed(s)
  {
    forall k :: 0 <= k < |s| ==> s[k].path != "" && Walk(s, 0, s[k].path) == Found(k)
  }

  /** `to` follows `from` along `next` links. */
  ghost predicate Follows(s: Store, from: nat, to: nat)
    requires WellFormed(s) && from < |s|
    decreases |s| - from
  {
    assert CellOk(s, from);
    s[from].next != NIL && (s[from].next == to || Follows(s, s[from].next, to))
  }

  lemma {:induction false} FollowsShares(s: Store, from: nat, to: nat)
    requires WellFormed(s) && from < |s| && Follows(s, from, to)
    ensures from < to < |s| && s[from].path != "" && s[to].path != ""
    ensures Front(s[to].path) == Front(s[from].path)
    decreases |s| - from
  {
    assert CellOk(s, from);
    var n := s[from].next;
    assert CellOk(s, n);
    assert Front(s[n].path) == Front(s[from].path);
    if n != to {
      FollowsShares(s, n, to);
    }
  }

  /** Siblings have distinct letters. */
  lemma {:induction false} SiblingsDiffer(s: Store, from: nat, to: nat)
    requires WellFormed(s) && Exact(s) && from < |s| && Follows(s, from, to)
    ensures from < to < |s| && s[from].letter != s[to].letter
  {
    FollowsShares(s, from, to);
    assert CellOk(s, from) && CellOk(s, to);
    assert s[from].path == Front(s[from].path) + [s[from].letter];
    assert s[to].path == Front(s[to].path) + [s[to].letter];
  }

  /** Linking a fresh node where the walk for its spelling failed keeps the trie exact. */
  lemma {:induction false} ExactAfterSibling(s: Store, m: nat, c: char, w: string)
    requires WellFormed(s) && Exact(s) && s != [] && m < |s| && !IsBlank(c) && w != ""
    requires Walk(s, 0, w) == NoSibling(m, [c])
    ensures s[m].path != "" && WellFormed(AddSibling(s, m, c)) && Exact(AddSibling(s, m, c))
    ensures Walk(AddSibling(s, m, c), 0, w) == Found(|s|)
  {
    AddSiblingOk(s, m, c);
    var t := AddSibling(s, m, c);
    WalkAfterSibling(s, m, c, 0, w);
    WalkSpells(s, 0, w);
    assert CellOk(s, 0);
    assert Front(s[0].path) + w == w;
    forall k | 0 <= k < |t| ensures t[k].path != "" && Walk(t, 0, t[k].path) == Found(k) {
      if k < |s| {
        WalkAfterSibling(s, m, c, 0, s[k].path);
      }
    }
  }

  lemma {:induction false} ExactAfterChild(s: Store, m: nat, c: char, w: string)
    requires WellFormed(s) && Exact(s) && s != [] && m < |s| && !IsBlank(c) && w != ""
    requires Walk(s, 0, w) == NoChild(m, [c])
    ensures WellFormed(AddChild(s, m, c)) && Exact(AddChild(s, m, c))
    ensures Walk(AddChild(s, m, c), 0, w) == Found(|s|)
  {
    AddChildOk(s, m, c);
    var t := AddChild(s, m, c);
    WalkAfterChild(s, m, c, 0, w);
    WalkSpells(s, 0, w);
    assert CellOk(s, 0);
    assert Front(s[0].path) + w == w;
    forall k | 0 <= k < |t| ensures t[k].path != "" && Walk(t, 0, t[k].path) == Found(k) {
      if k < |s| {
        WalkAfterChild(s, m, c, 0, s[k].path);
      }
    }
  }

  lemma {:induction false} ExactAfterIndex(s: Store, m: nat, ps: seq<Posting>)
    requires WellFormed(s) && Exact(s) && m < |s| && Positive(ps)
    ensures WellFormed(SetIndex(s, m, ps)) && Exact(SetIndex(s, m, ps))
  {
    SetIndexOk(s, m, ps);
    var t := SetIndex(s, m, ps);
    forall k | 0 <= k < |t| ensures t[k].path != "" && Walk(t, 0, t[k].path) == Found(k) {
      WalkIgnoresIndex(s, m, ps, 0, s[k].path);
    }
  }

  // ---- Conservation ----

  function CellTotal(cell: Cell): int {
    Total(cell.index)
  }

  /** The sum of all word frequencies in the trie. */
  function TotalFrequency(s: Store): int {
    Sum(s, CellTotal)
  }

  lemma {:induction false} TotalAfterSibling(s: Store, k: nat, c: char)
    requires k < |s| && s[k].path != ""
    ensures TotalFrequency(AddSibling(s, k, c)) == TotalFrequency(s)
  {
    var u := s[k := s[k].(next := |s|)];
    SumUpdate(s, k, s[k].(next := |s|), CellTotal);
    assert AddSibling(s, k, c)[..|s|] == u;
  }

  lemma {:induction false} TotalAfterChild(s: Store, k: nat, c: char)
    requires k < |s|
    ensures TotalFrequency(AddChild(s, k, c)) == TotalFrequency(s)
  {
    var u := s[k := s[k].(cont := |s|)];
    SumUpdate(s, k, s[k].(cont := |s|), CellTotal);
    assert AddChild(s, k, c)[..|s|] == u;
  }

  lemma {:induction false} TotalAfterDrop(s: Store)
    ensures TotalFrequency(DropChild(s)) == TotalFrequency(s)
  {
    if s != [] {
      SumUpdate(s, 0, s[0].(cont := NIL), CellTotal);
    }
  }

  // ---- One letter, as one fact ----

  ghost predicate SameLookups(s: Store, t: Store)
    requires WellFormed(s) && WellFormed(t)
  {
    forall v :: Lookup(t, v) == Lookup(s, v)
  }

  /** `t` is `s` with a fresh node for `w`: nothing is found differently or counted, and the node is where it should
      be. */
  ghost predicate Grown(s: Store, t: Store, w: string)
    requires WellFormed(s) && w != ""
  {
    && WellFormed(t)
    && |t| == |s| + 1
    && SameLookups(s, t)
    && TotalFrequency(t) == TotalFrequency(s)
    && Walk(t, 0, w) == Found(|s|)
    && (Exact(s) ==> Exact(t))
  }

  lemma {:induction false} GrownBySibling(s: Store, m: nat, c: char, w: string)
    requires WellFormed(s) && m < |s| && !IsBlank(c) && w != ""
    requires Walk(s, 0, w) == NoSibling(m, [c])
    ensures s[m].path != "" && Grown(s, AddSibling(s, m, c), w)
  {
    LookupAfterSibling(s, m, c);
    TotalAfterSibling(s, m, c);
    WalkAfterSibling(s, m, c, 0, w);
    if Exact(s) {
      ExactAfterSibling(s, m, c, w);
    }
  }

  lemma {:induction false} GrownByChild(s: Store, m: nat, c: char, w: string)
    requires WellFormed(s) && m < |s| && !IsBlank(c) && w != ""
    requires Walk(s, 0, w) == NoChild(m, [c])
    ensures Grown(s, AddChild(s, m, c), w)
  {
    LookupAfterChild(s, m, c);
    TotalAfterChild(s, m, c);
    WalkAfterChild(s, m, c, 0, w);
    if Exact(s) {
      ExactAfterChild(s, m, c, w);
    }
  }

  /** A flagged child: the node of `p` is the root, or has no continuation. */
  lemma {:induction false} GrownByFirstChild(s: Store, m: nat, c: char, p: string)
    requires WellFormed(s) && m < |s| && !IsBlank(c) && p != ""
    requires Walk(s, 0, p) == Found(m) && (m == 0 || s[m].cont == NIL)
    ensures var base := Kept(s, m == 0);
            && TotalFrequency(base) == TotalFrequency(s)
            && (s[m].cont == NIL ==> base == s)
            && base[m].cont == NIL
            && Grown(base, AddChild(base, m, c), p + [c])
  {
    var base := Kept(s, m == 0);
    TotalAfterDrop(s);
    FoundSpells(s, p);
    assert CellOk(s, 0) && CellOk(base, 0);
    if m == 0 {
      assert Walk(base, 0, p) == Found(0);
    }
    WalkOn(base, 0, p, [c]);
    GrownByChild(base, m, c, p + [c]);
  }

  /** `t` is `s` after one more occurrence of `p`: that word's answer grows by it and no other answer changes. */
  ghost predicate Counted(s: Store, t: Store, p: string, id: int, file: string)
    requires WellFormed(s)
  {
    && WellFormed(t)
    && (forall v :: Lookup(t, v) == if v == p then AddPosting(Lookup(s, p), id, file) else Lookup(s, v))
    && TotalFrequency(t) == TotalFrequency(s) + 1
    && (Exact(s) ==> Exact(t))
  }

  lemma {:induction false} CountedAt(s: Store, p: string, id: int, file: string)
    requires WellFormed(s) && s != [] && p != "" && Walk(s, 0, p).Found?
    ensures var m := Walk(s, 0, p).at;
            Counted(s, SetIndex(s, m, AddPosting(s[m].index, id, file)), p, id, file)
  {
    var m := Walk(s, 0, p).at;
    var ps := AddPosting(s[m].index, id, file);
    assert CellOk(s, m);
    AddPostingPositive(s[m].index, id, file);
    LookupAfterIndex(s, p, ps);
    AddPostingTotal(s[m].index, id, file);
    SumUpdate(s, m, s[m].(index := ps), CellTotal);
    if Exact(s) {
      ExactAfterIndex(s, m, ps);
    }
  }
}
