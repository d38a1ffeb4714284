/** The index trie of a worker: first-child / next-sibling nodes built in place, one character at a time. */
module Tries {
  import opened Wrappers
  import opened Words
  import opened Postings
  import opened PostingLists
  import opened TrieStore
  import opened LineProgress
  import opened TextProgress
  import opened TextMap

  class TrieNode {
    const letter: char
    var next: TrieNode?
    var cont: TrieNode?
    var index: PlistNode?
    /** The nodes of the list at `index`. */
    ghost var postings: seq<PlistNode>

    /** The posting list of this trie node, and of no other, holds `ps`. */
    ghost predicate Holds(ps: seq<Posting>)
      reads this`index, this`postings, postings
    {
      Chain(index, postings, this) && Values(postings) == ps
    }

    constructor (c: char)
      ensures letter == c && next == null && cont == null && index == null && postings == [] && Holds([])
    {
      letter := c;
      next, cont, index := null, null, null;
      postings := [];
    }

    /** One more occurrence in line `i` of `file`: a first node, or the scan of the list. */
    method AddOccurrence(i: int, file: string, ghost ps: seq<Posting>)
      requires Holds(ps)
      modifies this`index, this`postings, postings
      ensures Holds(AddPosting(ps, i, file))
      ensures old(postings) <= postings && forall k :: |old(postings)| <= k < |postings| ==> fresh(postings[k])
    {
      hide AddPosting;
      if index == null {
        FirstPosting(i, file);
        index := new PlistNode(i, file, this, 0);
        postings := [index];
        assert Linked(postings, 0, this);
      } else {
        postings := Bump(index, i, file, postings, this);
      }
    }
  }

  lemma {:induction false} FirstPosting(i: int, file: string)
    ensures AddPosting([], i, file) == [Posting(i, file, 1)]
  {
  }

  ghost predicate Within(n: TrieNode, slips: set<PlistNode>)
    reads n`postings
  {
    forall p :: p in n.postings ==> p in slips
  }

  ghost function NodeAt(nodes: seq<TrieNode>, k: int): TrieNode? {
    if 0 <= k < |nodes| then nodes[k] else null
  }

  ghost predicate Apart(n: TrieNode, m: TrieNode)
    reads n`postings, m`postings
  {
    forall i, j :: 0 <= i < |n.postings| && 0 <= j < |m.postings| ==> n.postings[i] != m.postings[j]
  }

  lemma {:induction false} OwnLists(n: TrieNode, m: TrieNode, ps: seq<Posting>, qs: seq<Posting>)
    requires n.Holds(ps) && m.Holds(qs) && n != m
    ensures Apart(n, m)
  {
    forall i, j | 0 <= i < |n.postings| && 0 <= j < |m.postings| ensures n.postings[i] != m.postings[j] {
      assert Linked(n.postings, i, n) && Linked(m.postings, j, m);
    }
  }

  /** The list of one node grows, those of the others stay. */
  method AddOccurrenceApart(cur: TrieNode, i: int, file: string, ghost m: nat, ghost nodes: seq<TrieNode>,
                            ghost store: Store)
    requires m < |nodes| == |store| && nodes[m] == cur
    requires forall k :: 0 <= k < |nodes| ==> nodes[k].Holds(store[k].index)
    requires forall k :: 0 <= k < |nodes| && k != m ==> nodes[k] != cur && Apart(nodes[k], cur)
    modifies cur`index, cur`postings, cur.postings
    ensures cur.Holds(AddPosting(store[m].index, i, file))
    ensures forall k :: 0 <= k < |nodes| && k != m ==> nodes[k].Holds(store[k].index)
    ensures forall k :: 0 <= k < |nodes| && k != m ==> nodes[k].postings == old(nodes[k].postings)
    ensures old(cur.postings) <= cur.postings
    ensures forall k :: |old(cur.postings)| <= k < |cur.postings| ==> fresh(cur.postings[k])
  {
    hide TrieNode.Holds;
    cur.AddOccurrence(i, file, store[m].index);
    forall k | 0 <= k < |nodes| && k != m ensures nodes[k].Holds(store[k].index) {
      assert old(Apart(nodes[k], cur));
      assert old(nodes[k].Holds(store[k].index));
    }
  }

  /** Letter and links are those of the cell. */
  ghost predicate LinksAs(nodes: seq<TrieNode>, n: TrieNode, cell: Cell)
    reads n`next, n`cont
  {
    n.letter == cell.letter && n.next == NodeAt(nodes, cell.next) && n.cont == NodeAt(nodes, cell.cont)
  }

  ghost predicate Mirrors(nodes: seq<TrieNode>, n: TrieNode, cell: Cell)
    reads n, n.postings
  {
    LinksAs(nodes, n, cell) && n.Holds(cell.index)
  }

  lemma {:induction false} LinksIgnoreIndex(nodes: seq<TrieNode>, n: TrieNode, cell: Cell, ps: seq<Posting>)
    requires LinksAs(nodes, n, cell)
    ensures LinksAs(nodes, n, cell.(index := ps))
  {
  }

  lemma {:induction false} LinksGrow(s: Store, i: nat, nodes: seq<TrieNode>, n: TrieNode, added: TrieNode)
    requires WellFormed(s) && i < |s| == |nodes| && LinksAs(nodes, n, s[i])
    ensures LinksAs(nodes + [added], n, s[i])
  {
    assert CellOk(s, i);
  }

  class Trie {
    var root: TrieNode?
    ghost var nodes: seq<TrieNode>
    ghost var store: Store
    /** The nodes of all posting lists. */
    ghost var slips: set<PlistNode>

    ghost predicate Valid()
      reads this, nodes, slips
    {
      && |nodes| == |store|
      && root == NodeAt(nodes, 0)
      && (forall i, j :: 0 <= i < j < |nodes| ==> nodes[i] != nodes[j])
      && WellFormed(store)
      && (forall k :: 0 <= k < |nodes| ==> Within(nodes[k], slips) && Mirrors(nodes, nodes[k], store[k]))
    }

    constructor ()
      ensures Valid() && root == null && store == [] && nodes == [] && slips == {}
    {
      root, nodes, store, slips := null, [], [], {};
    }

    // ---- Nodes ----

    method MakeRoot(c: char)
      requires Valid() && root == null && !IsBlank(c)
      modifies this
      ensures slips == old(slips)
      ensures Valid() && store == NewRoot(c) && root != null && nodes == [root] && fresh(root)
    {
      root := new TrieNode(c);
      nodes := [root];
      store := NewRoot(c);
      assert CellOk(store, 0);
    }

    method MakeSibling(at: TrieNode, ghost k: nat, c: char) returns (n: TrieNode)
      requires Valid() && k < |nodes| && nodes[k] == at && at.next == null && !IsBlank(c)
      modifies this, at
      ensures slips == old(slips)
      ensures Valid() && root == old(root) && fresh(n) && nodes == old(nodes) + [n]
      ensures old(store)[k].path != "" && old(store)[k].next == NIL && store == AddSibling(old(store), k, c)
      ensures n.cont == null
    {
      hide TrieNode.Holds;
      assert CellOk(store, k) && Mirrors(nodes, at, store[k]);
      AddSiblingOk(store, k, c);
      n := new TrieNode(c);
      at.next := n;
      nodes := nodes + [n];
      store := AddSibling(store, k, c);
      forall i | 0 <= i < |nodes| ensures Within(nodes[i], slips) && Mirrors(nodes, nodes[i], store[i]) {
        if i < |old(nodes)| {
          assert old(Within(nodes[i], slips) && Mirrors(nodes, nodes[i], store[i]));
          if i != k {
            LinksGrow(old(store), i, old(nodes), nodes[i], n);
          } else {
            assert CellOk(old(store), i);
          }
        }
      }
    }

    /** Assigning a fresh node to `cont`; only the root may already have a continuation, which is then lost. */
    method MakeChild(at: TrieNode, ghost k: nat, c: char) returns (n: TrieNode)
      requires Valid() && k < |nodes| && nodes[k] == at && !IsBlank(c)
      requires at.cont == null || at == root
      modifies this, at
      ensures slips == old(slips)
      ensures Valid() && root == old(root) && fresh(n) && nodes == old(nodes) + [n]
      ensures var s := if k == 0 then DropChild(old(store)) else old(store);
              s[k].cont == NIL && store == AddChild(s, k, c)
      ensures n.cont == null
    {
      hide TrieNode.Holds;
      assert CellOk(store, k) && Mirrors(nodes, at, store[k]);
      DropChildOk(store);
      ghost var s := if k == 0 then DropChild(store) else store;
      AddChildOk(s, k, c);
      n := new TrieNode(c);
      at.cont := n;
      nodes := nodes + [n];
      store := AddChild(s, k, c);
      forall i | 0 <= i < |nodes| ensures Within(nodes[i], slips) && Mirrors(nodes, nodes[i], store[i]) {
        if i < |old(nodes)| {
          assert old(Within(nodes[i], slips) && Mirrors(nodes, nodes[i], store[i]));
          if i != k {
            LinksGrow(old(store), i, old(nodes), nodes[i], n);
          } else {
            assert CellOk(old(store), i);
          }
        }
      }
    }

    // ---- The cursor ----

    /** After the letters `p` of a word the cursor is on the node of `p`, and the flag says what to do with the next
        letter: 0 look among the root's siblings, 1 make a continuation, 3 go to the continuation. */
    ghost predicate Cursor(cur: TrieNode?, flag: int, p: string)
      requires Valid()
      reads this, nodes, slips
    {
      && root != null
      && (p == "" ==> cur == root && flag == 0)
      && (p != "" ==>
            && Walk(store, 0, p).Found?
            && cur == nodes[Walk(store, 0, p).at]
            && (flag == 1 || flag == 3)
            && (flag == 3 ==> cur.cont != null))
    }

    /** Look for the letter from `cur0` on among its siblings, `cur0` first; if none has it, make the last one's
        next. */
    method FindLetter(cur0: TrieNode, c: char, ghost k0: nat, ghost w: string) returns (cur: TrieNode, flag: int)
      requires Valid() && k0 < |nodes| && nodes[k0] == cur0 && !IsBlank(c)
      requires w != "" && Walk(store, 0, w) == Walk(store, k0, [c])
      modifies this, nodes
      ensures slips == old(slips)
      ensures Valid() && root == old(root) && Cursor(cur, flag, w) && (flag == 1 ==> cur.cont == null)
      ensures old(nodes) <= nodes && forall k :: |old(nodes)| <= k < |nodes| ==> fresh(nodes[k])
      ensures store == old(store) || Grown(old(store), store, w)
    {
      hide TrieNode.Holds, Within;
      cur := cur0;
      ghost var k := k0;
      assert CellOk(store, k) && Mirrors(nodes, cur, store[k]);
      if cur.letter == c {
        flag := if cur.cont == null then 1 else 3;
        return;
      }
      while true
        invariant k < |nodes| && nodes[k] == cur && cur.letter != c
        invariant Walk(store, 0, w) == Walk(store, k, [c])
        decreases |nodes| - k
      {
        assert CellOk(store, k) && Mirrors(nodes, cur, store[k]);
        if cur.next == null {
          GrownBySibling(store, k, c, w);
          cur := MakeSibling(cur, k, c);
          flag := 1;
          return;
        }
        k := store[k].next;
        cur := cur.next;
        assert CellOk(store, k) && Mirrors(nodes, cur, store[k]);
        if cur.letter == c {
          flag := if cur.cont == null then 1 else 3;
          return;
        }
      }
    }

    /** One letter of a word after the first ever: move to the node of `p + [c]`, making it if there is none. */
    method AddLetter(cur0: TrieNode, flag0: int, c: char, ghost p: string) returns (cur: TrieNode, flag: int)
      requires Valid() && Cursor(cur0, flag0, p) && !IsBlank(c)
      requires flag0 == 1 ==> cur0.cont == null || cur0 == root
      modifies this, nodes
      ensures slips == old(slips)
      ensures Valid() && root == old(root) && Cursor(cur, flag, p + [c]) && (flag == 1 ==> cur.cont == null)
      ensures old(nodes) <= nodes && forall k :: |old(nodes)| <= k < |nodes| ==> fresh(nodes[k])
      ensures var base := Kept(old(store), flag0 == 1 && cur0 == root);
              && (store == base || Grown(base, store, p + [c]))
              && TotalFrequency(base) == TotalFrequency(old(store))
              && (flag0 == 1 && old(cur0.cont) == null ==> base == old(store))
    {
      hide TrieNode.Holds, Within;
      cur := cur0;
      ghost var k: nat := if p == "" then 0 else Walk(store, 0, p).at;
      assert CellOk(store, k) && Mirrors(nodes, cur, store[k]);
      if flag0 == 3 {
        WalkOn(store, 0, p, [c]);
        cur := cur.cont;
        k := store[k].cont;
      }
      if flag0 == 1 {
        GrownByFirstChild(store, k, c, p);
        assert k == 0 <==> cur == root;
        cur := MakeChild(cur, k, c);
        flag := 1;
      } else {
        assert p == "" ==> p + [c] == [c];
        cur, flag := FindLetter(cur, c, k, p + [c]);
      }
    }

    /** One more occurrence in the list of one node, and of no other. */
    method AddToNode(cur: TrieNode, ghost m: nat, i: int, file: string)
      requires Valid() && m < |nodes| && cur == nodes[m] && Positive(store[m].index)
      modifies this, cur`index, cur`postings, cur.postings
      ensures Valid() && root == old(root) && nodes == old(nodes) && fresh(slips - old(slips))
      ensures store == SetIndex(old(store), m, AddPosting(old(store)[m].index, i, file))
    {
      hide TrieNode.Holds, WellFormed, AddPosting, Apart, LinksAs;
      ghost var ps := store[m].index;
      assert Within(cur, slips) && Mirrors(nodes, cur, store[m]);
      AddPostingPositive(ps, i, file);
      SetIndexOk(store, m, AddPosting(ps, i, file));
      ListsApart(m);
      AddOccurrenceApart(cur, i, file, m, nodes, store);
      slips := slips + set q | q in cur.postings;
      store := SetIndex(store, m, AddPosting(ps, i, file));
      forall k | 0 <= k < |nodes| ensures Within(nodes[k], slips) && Mirrors(nodes, nodes[k], store[k]) {
        assert old(Within(nodes[k], slips) && Mirrors(nodes, nodes[k], store[k]));
        LinksIgnoreIndex(nodes, nodes[k], old(store)[k], store[k].index);
      }
    }

    /** The end of a word: one more posting, or one more occurrence, for the node the cursor is on. */
    method CountWord(cur: TrieNode, ghost flag: int, ghost p: string, i: int, file: string)
      requires Valid() && p != "" && Cursor(cur, flag, p)
      modifies this, nodes, slips
      ensures Valid() && root == old(root) && nodes == old(nodes) && fresh(slips - old(slips))
      ensures Counted(old(store), store, p, i, file)
    {
      hide TrieNode.Holds, Counted, AddPosting;
      ghost var m := Walk(store, 0, p).at;
      assert Within(cur, slips) && CellOk(store, m);
      CountedAt(store, p, i, file);
      AddToNode(cur, m, i, file);
    }

    /** No two nodes share a part of their lists. */
    lemma {:induction false} ListsApart(m: nat)
      requires Valid() && m < |nodes|
      ensures forall k :: 0 <= k < |nodes| ==> nodes[k].Holds(store[k].index)
      ensures forall k :: 0 <= k < |nodes| && k != m ==> nodes[k] != nodes[m] && Apart(nodes[k], nodes[m])
    {
      hide TrieNode.Holds, Apart, WellFormed;
      forall k | 0 <= k < |nodes| ensures nodes[k].Holds(store[k].index) {
        assert Mirrors(nodes, nodes[k], store[k]);
      }
      forall k | 0 <= k < |nodes| && k != m ensures nodes[k] != nodes[m] && Apart(nodes[k], nodes[m]) {
        OwnLists(nodes[k], nodes[m], store[k].index, store[m].index);
      }
    }

    // ---- A line ----

    /** The builder's variables part way through a line that began with the trie at `s0`. */
    ghost predicate InLine(s0: Store, first: bool, counter: int, cur: TrieNode?, resultFlag: int, newContFlag: int,
                           q: Scan, id: int, file: string)
      requires WellFormed(s0)
      reads this, nodes, slips
    {
      && Valid()
      && Progress(s0, store, first, q, id, file)
      && resultFlag == (if q.partial == "" then 0 else 1)
      && counter >= 0
      && (counter == 0 <==> first && q == START)
      && (counter == 0 ==> store == s0)
      && (counter > 0 ==> Cursor(cur, newContFlag, q.partial))
      && (OneLetter(first, q) ==> cur == root && newContFlag == 1)
      && (newContFlag == 1 && q.partial != "" && !OneLetter(first, q) ==> cur.cont == null)
    }

    /** In a trie that was begun from nothing, at every character of every line: no node is lost and siblings differ
        (see SiblingsDiffer), the cursor stands on the node that spells the word so far, and the flag tells whether
        that node has a continuation. */
    lemma {:induction false} FreshTrieShape(s0: Store, first: bool, counter: int, cur: TrieNode?, resultFlag: int,
                                            newContFlag: int, q: Scan, id: int, file: string)
      requires WellFormed(s0) && Exact(s0) && (first ==> s0 == [])
      requires InLine(s0, first, counter, cur, resultFlag, newContFlag, q, id, file)
      ensures Exact(store)
      ensures q.partial != "" ==>
                var k := Walk(store, 0, q.partial).at;
                && nodes[k] == cur
                && store[k].path == q.partial
                && cur.letter == q.partial[|q.partial| - 1]
                && newContFlag == if cur.cont == null then 1 else 3
    {
      if q.partial != "" {
        var k := Walk(store, 0, q.partial).at;
        FoundSpells(store, q.partial);
        assert CellOk(store, k) && Mirrors(nodes, nodes[k], store[k]);
      }
    }

    /** The end of a word, at a blank or at the end of the line. */
    method EndWord(text: Text, i: int, fileName: string, cur0: TrieNode?, newContFlag0: int, words0: int,
                   counter: int, ghost s0: Store, ghost first: bool, ghost q: Scan)
      returns (resultFlag: int, newContFlag: int, cur: TrieNode?, words: int)
      requires WellFormed(s0) && InLine(s0, first, counter, cur0, 1, newContFlag0, q, i, fileName)
      modifies this, nodes, slips, text`numberOfWords
      ensures fresh(slips - old(slips))
      ensures InLine(s0, first, counter, cur, resultFlag, newContFlag, Scan(Flush(q), ""), i, fileName)
      ensures Valid() && resultFlag == 0
      ensures root == old(root) && nodes == old(nodes)
      ensures words == words0 + 1 && text.numberOfWords == old(text.numberOfWords) + 1
    {
      hide Progress, TrieNode.Holds;
      text.numberOfWords := text.numberOfWords + 1;
      CountWord(cur0, newContFlag0, q.partial, i, fileName);
      ProgressWord(s0, old(store), store, first, q, i, fileName);
      resultFlag := 0;
      newContFlag := 0;
      cur := root;
      words := words0 + 1;
    }

    /** What the builder takes the character for: the very first letter passes for the root's, if there is a root. */
    function PassesFor(counter: int, c: char): char
      reads this
    {
      if counter == 0 && root != null then root.letter else c
    }

    /** The first word character of the whole text: make the root for it, or stand on the root there is. */
    method FirstLetter(c: char, ghost s0: Store, ghost id: int, ghost file: string)
      returns (counter: int, cur: TrieNode?, resultFlag: int, newContFlag: int)
      requires Valid() && s0 == store && !IsBlank(c)
      modifies this
      ensures slips == old(slips)
      ensures InLine(s0, true, counter, cur, resultFlag, newContFlag, ScanChar(START, old(PassesFor(0, c))), id, file)
      ensures counter == 1 && resultFlag == 1 && !IsBlank(old(PassesFor(0, c)))
      ensures if old(root) != null then unchanged(this) else old(nodes) == [] && nodes == [root] && fresh(root)
    {
      if root != null {
        assert Mirrors(nodes, nodes[0], store[0]) && CellOk(store, 0);
      }
      ProgressRoot(s0, PassesFor(0, c), id, file);
      if root == null {
        MakeRoot(c);
      }
      counter := 1;
      cur := root;
      newContFlag := 1;
      resultFlag := 1;
    }

    /** Any later word character. */
    method LaterLetter(c: char, counter0: int, cur0: TrieNode?, resultFlag0: int, newContFlag0: int,
                       ghost s0: Store, ghost first: bool, ghost q: Scan, ghost id: int, ghost file: string)
      returns (counter: int, cur: TrieNode?, resultFlag: int, newContFlag: int)
      requires WellFormed(s0) && InLine(s0, first, counter0, cur0, resultFlag0, newContFlag0, q, id, file)
      requires counter0 > 0 && !IsBlank(c)
      modifies this, nodes
      ensures slips == old(slips)
      ensures InLine(s0, first, counter, cur, resultFlag, newContFlag, ScanChar(q, c), id, file)
      ensures counter > 0 && resultFlag == 1
      ensures root == old(root) && old(nodes) <= nodes && forall k :: |old(nodes)| <= k < |nodes| ==> fresh(nodes[k])
    {
      ghost var s, drop := store, newContFlag0 == 1 && cur0 == root;
      resultFlag := 1;
      cur, newContFlag := AddLetter(cur0, newContFlag0, c, q.partial);
      ProgressLetter(s0, s, store, first, q, c, drop, id, file);
      counter := counter0 + 1;
    }

    /** One character of a line, up to the end-of-line test; `e` is what the builder takes it for. */
    method ReadChar(text: Text, c: char, i: int, fileName: string, counter0: int, cur0: TrieNode?, resultFlag0: int,
                    newContFlag0: int, words0: int, ghost e: char, ghost s0: Store, ghost first: bool, ghost q: Scan)
      returns (counter: int, cur: TrieNode?, resultFlag: int, newContFlag: int, words: int)
      requires WellFormed(s0) && InLine(s0, first, counter0, cur0, resultFlag0, newContFlag0, q, i, fileName)
      requires if IsBlank(c) then IsBlank(e) else e == PassesFor(counter0, c)
      modifies this, nodes, slips, text`numberOfWords
      ensures fresh(slips - old(slips))
      ensures Valid() && InLine(s0, first, counter, cur, resultFlag, newContFlag, ScanChar(q, e), i, fileName)
      ensures resultFlag == if ScanChar(q, e).partial == "" then 0 else 1
      ensures words - words0 == text.numberOfWords - old(text.numberOfWords) == |ScanChar(q, e).finished| - |q.finished|
      ensures counter == 0 <==> counter0 == 0 && IsBlank(c)
      ensures counter == 0 ==> unchanged(this)
      ensures old(root) != null ==> root == old(root)
      ensures old(nodes) <= nodes && forall k :: |old(nodes)| <= k < |nodes| ==> fresh(nodes[k])
    {
      counter, cur, resultFlag, newContFlag, words := counter0, cur0, resultFlag0, newContFlag0, words0;
      if IsBlank(c) {
        if resultFlag == 1 {
          resultFlag, newContFlag, cur, words :=
            EndWord(text, i, fileName, cur, newContFlag, words, counter, s0, first, q);
        }
      } else if counter == 0 {
        counter, cur, resultFlag, newContFlag := FirstLetter(c, s0, i, fileName);
      } else {
        counter, cur, resultFlag, newContFlag :=
          LaterLetter(c, counter, cur, resultFlag, newContFlag, s0, first, q, i, fileName);
      }
    }

    /** The letter the next letter will pass for, if none has been read yet and there is a root. */
    function RootLetter(counter: int): Option<char>
      reads this
    {
      if counter == 0 && root != null then Some(root.letter) else None
    }

    lemma {:induction false} LineOpens(counter: int, line: string)
      requires Valid()
      ensures WellFormed(store) && (root != null ==> !IsBlank(root.letter))
      ensures var eff := Effective(RootLetter(counter), line);
              TakenAs(line, eff, 0, RootLetter(counter), counter == 0) && AtChar(eff, 0) == START
    {
      assert root != null ==> CellOk(store, 0) && Mirrors(nodes, nodes[0], store[0]);
      var eff := Effective(RootLetter(counter), line);
      assert eff[..0] == "";
    }

    /** One line of the text: the inner loop of the builder. */
    method AddLine(text: Text, i: int, fileName: string, counter0: int, cur0: TrieNode?, resultFlag0: int,
                   newContFlag0: int, words0: int)
      returns (counter: int, cur: TrieNode?, resultFlag: int, newContFlag: int, words: int)
      requires Valid() && InLine(store, counter0 == 0, counter0, cur0, resultFlag0, newContFlag0, START, i, fileName)
      requires resultFlag0 == 0
      modifies this, nodes, slips, text`numberOfWords
      ensures fresh(slips - old(slips))
      ensures Valid() && resultFlag == 0 && WellFormed(old(store))
      ensures InLine(old(store), counter0 == 0, counter, cur, resultFlag, newContFlag,
                     Scan(Split(Effective(old(RootLetter(counter0)), text.content)), ""), i, fileName)
      ensures var found := |Split(Effective(old(RootLetter(counter0)), text.content))|;
              words == words0 + found && text.numberOfWords == old(text.numberOfWords) + found
      ensures old(root) != null ==> root == old(root)
      ensures counter == 0 ==> unchanged(this)
      ensures old(nodes) <= nodes && forall k :: |old(nodes)| <= k < |nodes| ==> fresh(nodes[k])
    {
      hide InLine, Progress, Valid, WellFormed, TakenAs, AtChar, Effective, Split;
      counter, cur, resultFlag, newContFlag, words := counter0, cur0, resultFlag0, newContFlag0, words0;
      ghost var s0, first, rootLetter := store, counter0 == 0, RootLetter(counter0);
      ghost var eff := Effective(rootLetter, text.content);
      ghost var q := START;
      var textLength := |text.content|;
      LineOpens(counter0, text.content);
      var j := 0;
      while j < textLength
        invariant 0 <= j <= textLength == |eff|
        invariant Valid() && InLine(s0, first, counter, cur, resultFlag, newContFlag, q, i, fileName)
        invariant resultFlag == if q.partial == "" then 0 else 1
        invariant q == AtChar(eff, j)
        invariant words - words0 == text.numberOfWords - old(text.numberOfWords) == |q.finished|
        invariant old(root) != null ==> root == old(root)
        invariant old(nodes) <= nodes && forall k :: |old(nodes)| <= k < |nodes| ==> fresh(nodes[k])
        invariant fresh(slips - old(slips))
        invariant counter == 0 ==> unchanged(this) && counter0 == 0
        invariant TakenAs(text.content, eff, j, rootLetter, counter == 0)
      {
        AtCharStep(eff, j);
        TakeChar(text.content, eff, j, rootLetter, counter == 0);
        counter, cur, resultFlag, newContFlag, words :=
          ReadChar(text, text.content[j], i, fileName, counter, cur, resultFlag, newContFlag, words,
                   eff[j], s0, first, q);
        q := ScanChar(q, eff[j]);
        if j + 1 == textLength {
          if resultFlag == 1 {
            resultFlag, newContFlag, cur, words :=
              EndWord(text, i, fileName, cur, newContFlag, words, counter, s0, first, q);
          }
          q := Scan(Flush(q), "");
        }
        j := j + 1;
      }
      AtCharEnd(eff);
    }

    /** Between lines the builder is between words. */
    ghost predicate BetweenLines(counter: int, cur: TrieNode?, resultFlag: int, newContFlag: int, wordless: bool)
      reads this, nodes, slips
    {
      && Valid()
      && resultFlag == 0
      && counter >= 0
      && (counter == 0 <==> wordless)
      && (counter > 0 ==> Cursor(cur, newContFlag, ""))
    }

    lemma {:induction false} TextStart(lines: seq<string>)
      requires Valid()
      ensures BetweenLines(0, null, 0, 0, Wordless(lines, 0))
      ensures WellFormed(store) && (RootLetter(0).Some? ==> !IsBlank(RootLetter(0).value))
    {
      assert root != null ==> CellOk(store, 0) && Mirrors(nodes, nodes[0], store[0]);
    }

    lemma {:induction false} LineStart(counter: int, cur: TrieNode?, resultFlag: int, newContFlag: int,
                                       wordless: bool, id: int, file: string)
      requires BetweenLines(counter, cur, resultFlag, newContFlag, wordless)
      ensures InLine(store, counter == 0, counter, cur, resultFlag, newContFlag, START, id, file)
    {
    }

    /** Line `i` of the text, as one step of the outer loop. */
    method AddTextLine(text: Text, i: nat, fileName: string, counter0: int, cur0: TrieNode?, resultFlag0: int,
                       newContFlag0: int, words0: int, ghost s0: Store, ghost rootLetter: Option<char>,
                       ghost lines: seq<string>)
      returns (counter: int, cur: TrieNode?, resultFlag: int, newContFlag: int, words: int)
      requires i < |lines| && text.content == lines[i]
      requires BetweenLines(counter0, cur0, resultFlag0, newContFlag0, Wordless(lines, i))
      requires WellFormed(s0) && Built(s0, store, rootLetter, lines, i, fileName)
      requires rootLetter.Some? ==> !IsBlank(rootLetter.value)
      requires counter0 == 0 ==> RootLetter(0) == rootLetter
      modifies this, nodes, slips, text`numberOfWords
      ensures fresh(slips - old(slips))
      ensures Valid() && BetweenLines(counter, cur, resultFlag, newContFlag, Wordless(lines, i + 1))
      ensures Built(s0, store, rootLetter, lines, i + 1, fileName)
      ensures words == words0 + |Split(lines[i])|
      ensures text.numberOfWords == old(text.numberOfWords) + |Split(lines[i])|
      ensures old(root) != null ==> root == old(root)
      ensures counter == 0 ==> RootLetter(0) == rootLetter
      ensures old(nodes) <= nodes && forall k :: |old(nodes)| <= k < |nodes| ==> fresh(nodes[k])
    {
      LineStart(counter0, cur0, resultFlag0, newContFlag0, Wordless(lines, i), i, fileName);
      TakenSplit(rootLetter, lines, i);
      ghost var eff := Effective(RootLetter(counter0), text.content);
      assert eff == Taken(rootLetter, lines)[i];
      counter, cur, resultFlag, newContFlag, words :=
        AddLine(text, i, fileName, counter0, cur0, resultFlag0, newContFlag0, words0);
      LineEnd(old(store), counter0 == 0, counter, cur, resultFlag, newContFlag, Split(eff), i, fileName);
      BuiltLine(s0, old(store), store, rootLetter, lines, i, fileName);
    }

    lemma {:induction false} LineEnd(s: Store, first: bool, counter: int, cur: TrieNode?, resultFlag: int,
                                     newContFlag: int, words: seq<string>, id: int, file: string)
      requires WellFormed(s) && InLine(s, first, counter, cur, resultFlag, newContFlag, Scan(words, ""), id, file)
      ensures BetweenLines(counter, cur, resultFlag, newContFlag, first && words == [])
      ensures Progress(s, store, first, Scan(words, ""), id, file)
      ensures first && words == [] ==> store == s
    {
    }

    /** The whole text: the outer loop of the builder. */
    method CreateTrieFromTextMap(allTextsRoot: Text?, N: int, fileName: string, words0: int, ghost texts: seq<Text>)
      returns (words: int)
      requires Valid() && TextList(allTextsRoot, texts) && 0 <= N <= |texts|
      modifies this, nodes, slips, texts`numberOfWords
      ensures fresh(slips - old(slips))
      ensures Valid() && WellFormed(old(store))
      ensures Built(old(store), store, old(RootLetter(0)), Contents(texts), N, fileName)
      ensures words == words0 + WordCount(Contents(texts), N)
      ensures forall i :: 0 <= i < N ==>
                texts[i].numberOfWords == old(texts[i].numberOfWords) + |Split(texts[i].content)|
      ensures old(root) != null ==> root == old(root)
    {
      hide Valid, WellFormed, BetweenLines, Built, Wordless, Split, RootLetter, WordCount, Contents;
      ghost var s0, rootLetter, lines := store, RootLetter(0), Contents(texts);
      TextStart(lines);
      CountNone(lines);
      BuiltStart(store, rootLetter, lines, fileName);
      var counter, resultFlag, newContFlag := 0, 0, 0;
      var cur: TrieNode? := null;
      var curText := allTextsRoot;
      words := words0;
      for i := 0 to N
        invariant curText == if i < |texts| then texts[i] else null
        invariant Valid() && BetweenLines(counter, cur, resultFlag, newContFlag, Wordless(lines, i))
        invariant Built(s0, store, rootLetter, lines, i, fileName)
        invariant words == words0 + WordCount(lines, i)
        invariant forall k :: 0 <= k < |texts| ==>
                    texts[k].numberOfWords ==
                    old(texts[k].numberOfWords) + if k < i then |Split(texts[k].content)| else 0
        invariant old(root) != null ==> root == old(root)
        invariant old(nodes) <= nodes && forall k :: |old(nodes)| <= k < |nodes| ==> fresh(nodes[k])
        invariant fresh(slips - old(slips))
        invariant counter == 0 ==> RootLetter(0) == rootLetter
      {
        CountNext(lines, i);
        assert NextIs(texts, i);
        counter, cur, resultFlag, newContFlag, words :=
          AddTextLine(curText, i, fileName, counter, cur, resultFlag, newContFlag, words, s0, rootLetter, lines);
        curText := curText.next;
      }
    }

    /** The index of a word; nothing for the empty word, a word never added, or a prefix that is no word. */
    method SearchWordInTrie(word: string) returns (postings: PlistNode?, ghost list: seq<PlistNode>)
      requires Valid()
      ensures IsList(postings, list) && Values(list) == Lookup(store, word)
      ensures postings == null <==> Lookup(store, word) == []
    {
      var cur := root;
      ghost var k: nat := 0;
      for i := 0 to |word|
        invariant i == |word| ==> word == ""
        invariant i < |word| && cur != null ==>
                    k < |nodes| && cur == nodes[k] && Walk(store, 0, word) == Walk(store, k, word[i..])
        invariant cur == null ==> Lookup(store, word) == []
      {
        while true
          invariant cur != null ==> k < |nodes| && cur == nodes[k] && Walk(store, 0, word) == Walk(store, k, word[i..])
          invariant cur == null ==> Lookup(store, word) == []
          decreases if cur == null then 0 else 1 + |nodes| - k
        {
          if cur == null {
            return null, [];
          }
          assert CellOk(store, k) && Mirrors(nodes, nodes[k], store[k]);
          if cur.letter == word[i] {
            if i + 1 == |word| {
              assert cur.postings != [] ==> Linked(cur.postings, 0, cur);
              return cur.index, cur.postings;
            }
            assert word[i..][1..] == word[i + 1..];
            if cur.cont != null {
              k := store[k].cont;
            }
            cur := cur.cont;
            break;
          }
          if cur.next == null {
            return null, [];
          }
          k := store[k].next;
          cur := cur.next;
        }
      }
      return null, [];
    }
  }
}
