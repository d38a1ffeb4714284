/** Per-file results of a posting list, and the search for the file with the most or the fewest postings. */
module CountResults {
  import opened Sums
  import opened Postings
  import opened PostingLists

  // ---- What the lists hold ----

  datatype Tally = Tally(fileName: string, wordFrq: int)

  function AddTally(ts: seq<Tally>, file: string): seq<Tally> {
    if ts == [] then [Tally(file, 1)]
    else if ts[0].fileName == file then [ts[0].(wordFrq := ts[0].wordFrq + 1)] + ts[1..]
    else [ts[0]] + AddTally(ts[1..], file)
  }

  lemma {:induction false} FirstTally(file: string)
    ensures AddTally([], file) == [Tally(file, 1)]
  {
  }

  /** The tallies after the first `n` postings. */
  function Tallied(posts: seq<Posting>, n: nat): seq<Tally>
    requires n <= |posts|
  {
    if n == 0 then [] else AddTally(Tallied(posts, n - 1), posts[n - 1].file)
  }

  lemma {:induction false} TalliedNone(posts: seq<Posting>)
    ensures Tallied(posts, 0) == []
  {
  }

  lemma {:induction false} TalliedNext(posts: seq<Posting>, n: nat)
    requires n < |posts|
    ensures Tallied(posts, n + 1) == AddTally(Tallied(posts, n), posts[n].file)
  {
  }

  lemma {:induction false} AddTallyAt(ts: seq<Tally>, k: nat, file: string)
    requires k < |ts| && ts[k].fileName == file
    requires forall i :: 0 <= i < k ==> ts[i].fileName != file
    ensures AddTally(ts, file) == ts[k := Tally(file, ts[k].wordFrq + 1)]
  {
    if k > 0 {
      AddTallyAt(ts[1..], k - 1, file);
    }
  }

  lemma {:induction false} AddTallyNew(ts: seq<Tally>, file: string)
    requires forall i :: 0 <= i < |ts| ==> ts[i].fileName != file
    ensures AddTally(ts, file) == ts + [Tally(file, 1)]
  {
    if ts != [] {
      AddTallyNew(ts[1..], file);
    }
  }

  // ---- What they mean ----

  /** How many of the first `n` postings are of `file`. */
  function PostingsOf(posts: seq<Posting>, n: nat, file: string): nat
    requires n <= |posts|
  {
    if n == 0 then 0 else PostingsOf(posts, n - 1, file) + if posts[n - 1].file == file then 1 else 0
  }

  /** The files of the first `n` postings, each once, in the order they first appear. */
  function FilesOf(posts: seq<Posting>, n: nat): seq<string>
    requires n <= |posts|
  {
    if n == 0 then []
    else
      var files, file := FilesOf(posts, n - 1), posts[n - 1].file;
      if file in files then files else files + [file]
  }

  function Frequency(t: Tally): int {
    t.wordFrq
  }

  lemma {:induction false} PostingsOfPlainly(posts: seq<Posting>, n: nat, file: string)
    requires n <= |posts|
    ensures PostingsOf(posts, n, file) == |set i: nat | i < n && posts[i].file == file|
  {
    if n > 0 {
      PostingsOfPlainly(posts, n - 1, file);
      var less := set i: nat | i < n - 1 && posts[i].file == file;
      assert (set i: nat | i < n && posts[i].file == file) ==
             if posts[n - 1].file == file then less + {n - 1} else less;
    }
  }

  /** Among the first `n` postings, `file` has one before any of `other`. */
  ghost predicate Sooner(posts: seq<Posting>, n: nat, file: string, other: string)
    requires n <= |posts|
  {
    exists i :: 0 <= i < n && posts[i].file == file && forall h :: 0 <= h <= i ==> posts[h].file != other
  }

  /** The files listed are those that have a posting, each once, in order of their first postings. */
  lemma {:induction false} FilesOfPlainly(posts: seq<Posting>, n: nat)
    requires n <= |posts|
    ensures NoDup(FilesOf(posts, n))
    ensures forall file :: file in FilesOf(posts, n) <==> exists i :: 0 <= i < n && posts[i].file == file
    ensures forall j, k :: 0 <= j < k < |FilesOf(posts, n)| ==>
              Sooner(posts, n, FilesOf(posts, n)[j], FilesOf(posts, n)[k])
  {
    if n > 0 {
      FilesOfPlainly(posts, n - 1);
      var before, files, file := FilesOf(posts, n - 1), FilesOf(posts, n), posts[n - 1].file;
      forall j, k | 0 <= j < k < |files| ensures Sooner(posts, n, files[j], files[k]) {
        if k < |before| {
          assert Sooner(posts, n - 1, before[j], before[k]);
        } else {
          assert files[k] == file && file !in before && before[j] in before;
          var i :| 0 <= i < n - 1 && posts[i].file == before[j];
        }
      }
    }
  }

  /** One tally a file, in order of first appearance, holding the number of that file's postings. */
  ghost predicate Accounts(ts: seq<Tally>, posts: seq<Posting>, n: nat)
    requires n <= |posts|
  {
    && |ts| == |FilesOf(posts, n)|
    && (forall k :: 0 <= k < |ts| ==> ts[k] == Tally(FilesOf(posts, n)[k], PostingsOf(posts, n, ts[k].fileName)))
    && (forall j, k :: 0 <= j < k < |ts| ==> ts[j].fileName != ts[k].fileName)
    && Sum(ts, Frequency) == n
  }

  lemma {:induction false} AbsentHasNone(posts: seq<Posting>, n: nat, file: string)
    requires n <= |posts| && file !in FilesOf(posts, n)
    ensures PostingsOf(posts, n, file) == 0
  {
    if n > 0 {
      AbsentHasNone(posts, n - 1, file);
    }
  }

  lemma {:induction false} AccountsKnown(ts: seq<Tally>, posts: seq<Posting>, n: nat, k: nat)
    requires n < |posts| && Accounts(ts, posts, n) && k < |ts| && ts[k].fileName == posts[n].file
    ensures Accounts(ts[k := ts[k].(wordFrq := ts[k].wordFrq + 1)], posts, n + 1)
  {
    SumUpdate(ts, k, ts[k].(wordFrq := ts[k].wordFrq + 1), Frequency);
    assert FilesOf(posts, n)[k] == posts[n].file;
    assert FilesOf(posts, n + 1) == FilesOf(posts, n);
  }

  lemma {:induction false} AccountsNew(ts: seq<Tally>, posts: seq<Posting>, n: nat)
    requires n < |posts| && Accounts(ts, posts, n) && posts[n].file !in FilesOf(posts, n)
    ensures Accounts(ts + [Tally(posts[n].file, 1)], posts, n + 1)
  {
    AbsentHasNone(posts, n, posts[n].file);
    assert (ts + [Tally(posts[n].file, 1)])[..|ts|] == ts;
  }

  lemma {:induction false} TalliedAccounts(posts: seq<Posting>, n: nat)
    requires n <= |posts|
    ensures Accounts(Tallied(posts, n), posts, n)
  {
    if n > 0 {
      TalliedAccounts(posts, n - 1);
      var ts, files, file := Tallied(posts, n - 1), FilesOf(posts, n - 1), posts[n - 1].file;
      if file in files {
        var k :| 0 <= k < |files| && files[k] == file;
        AddTallyAt(ts, k, file);
        AccountsKnown(ts, posts, n - 1, k);
      } else {
        AddTallyNew(ts, file);
        AccountsNew(ts, posts, n - 1);
      }
    }
  }

  /** Nobody has more than the head, and of those that have as much it was the last. */
  ghost predicate LastMaximum(ts: seq<Tally>, m: nat) {
    && m < |ts|
    && (forall j :: 0 <= j < |ts| ==> ts[j].wordFrq <= ts[m].wordFrq)
    && (forall j :: m < j < |ts| ==> ts[j].wordFrq < ts[m].wordFrq)
  }

  /** Nobody has less, and of those that have as little it was the first. */
  ghost predicate FirstMinimum(ts: seq<Tally>, m: nat) {
    && m < |ts|
    && (forall j :: 0 <= j < |ts| ==> ts[m].wordFrq <= ts[j].wordFrq)
    && (forall j :: 0 <= j < m ==> ts[m].wordFrq < ts[j].wordFrq)
  }

  function Exchanged(ts: seq<Tally>, m: nat): seq<Tally>
    requires m < |ts|
  {
    ts[0 := ts[m]][m := ts[0]]
  }

  lemma {:induction false} ExchangeIsPermutation(ts: seq<Tally>, m: nat)
    requires m < |ts|
    ensures multiset(Exchanged(ts, m)) == multiset(ts)
    ensures Exchanged(ts, m)[0] == ts[m] && Exchanged(ts, m)[m] == ts[0]
    ensures forall k :: 0 < k < |ts| && k != m ==> Exchanged(ts, m)[k] == ts[k]
  {
  }

  lemma {:induction false} ExchangeNone(ts: seq<Tally>)
    requires ts != []
    ensures Exchanged(ts, 0) == ts
  {
  }

  // ---- The lists themselves ----

  class CountNode {
    var fileName: string
    var wordFrq: int
    var next: CountNode?

    constructor (fileName: string)
      ensures this.fileName == fileName && wordFrq == 1 && next == null
    {
      this.fileName := fileName;
      wordFrq := 1;
      next := null;
    }
  }

  /** `nodes` are the nodes of the list at `head`, in order. */
  ghost predicate Chain(head: CountNode?, nodes: seq<CountNode>)
    reads nodes
  {
    && (head == if nodes == [] then null else nodes[0])
    && (forall i, j :: 0 <= i < j < |nodes| ==> nodes[i] != nodes[j])
    && (forall k :: 0 <= k < |nodes| ==> Linked(nodes, k))
  }

  ghost predicate Linked(nodes: seq<CountNode>, k: nat)
    requires k < |nodes|
    reads nodes[k]
  {
    nodes[k].next == if k + 1 < |nodes| then nodes[k + 1] else null
  }

  ghost function Tallies(nodes: seq<CountNode>): (ts: seq<Tally>)
    reads nodes
    ensures |ts| == |nodes|
    ensures forall k :: 0 <= k < |nodes| ==> ts[k] == Tally(nodes[k].fileName, nodes[k].wordFrq)
  {
    seq(|nodes|, k requires 0 <= k < |nodes| reads nodes => Tally(nodes[k].fileName, nodes[k].wordFrq))
  }

  method Increment(cur: CountNode, ghost head: CountNode?, ghost nodes: seq<CountNode>, ghost k: nat)
    requires Chain(head, nodes) && k < |nodes| && nodes[k] == cur
    modifies cur
    ensures Chain(head, nodes)
    ensures var ts := old(Tallies(nodes)); Tallies(nodes) == ts[k := ts[k].(wordFrq := ts[k].wordFrq + 1)]
  {
    cur.wordFrq := cur.wordFrq + 1;
    forall i | 0 <= i < |nodes| ensures Linked(nodes, i) {
      assert old(Linked(nodes, i));
    }
  }

  method Append(last: CountNode, file: string, ghost head: CountNode?, ghost nodes0: seq<CountNode>)
    returns (ghost nodes: seq<CountNode>)
    requires Chain(head, nodes0) && nodes0 != [] && nodes0[|nodes0| - 1] == last
    modifies last
    ensures Chain(head, nodes) && nodes0 <= nodes && |nodes| == |nodes0| + 1 && fresh(nodes[|nodes0|])
    ensures Tallies(nodes) == old(Tallies(nodes0)) + [Tally(file, 1)]
  {
    var added := new CountNode(file);
    last.next := added;
    nodes := nodes0 + [added];
    forall i | 0 <= i < |nodes| ensures Linked(nodes, i) {
      if i < |nodes0| - 1 {
        assert old(Linked(nodes0, i));
      }
    }
  }

  /** One posting counted in a list that has a first node. */
  method CountPosting(head: CountNode, file: string, ghost nodes0: seq<CountNode>) returns (ghost nodes: seq<CountNode>)
    requires Chain(head, nodes0) && nodes0 != []
    modifies nodes0
    ensures Chain(head, nodes) && nodes0 <= nodes && forall k :: |nodes0| <= k < |nodes| ==> fresh(nodes[k])
    ensures Tallies(nodes) == AddTally(old(Tallies(nodes0)), file)
  {
    nodes := nodes0;
    ghost var ts := Tallies(nodes);
    var cur: CountNode? := head;
    ghost var k := 0;
    while cur != null
      invariant k < |nodes0| && cur == nodes0[k]
      invariant forall i :: 0 <= i < k ==> ts[i].fileName != file
      decreases |nodes0| - k
    {
      assert Linked(nodes0, k);
      if cur.fileName == file {
        AddTallyAt(ts, k, file);
        Increment(cur, head, nodes, k);
        return;
      }
      if cur.next == null {
        AddTallyNew(ts, file);
        nodes := Append(cur, file, head, nodes0);
        return;
      }
      cur := cur.next;
      k := k + 1;
    }
  }

  method CreateCountResults(post0: PlistNode?, ghost list: seq<PlistNode>)
    returns (cRes: CountNode?, ghost nodes: seq<CountNode>)
    requires IsList(post0, list)
    ensures Chain(cRes, nodes) && forall k :: 0 <= k < |nodes| ==> fresh(nodes[k])
    ensures Tallies(nodes) == Tallied(Values(list), |list|)
  {
    hide AddTally, Tallied;
    cRes, nodes := null, [];
    ghost var posts := Values(list);
    var post := post0;
    var flag := 0;
    ghost var i := 0;
    TalliedNone(posts);
    while post != null
      invariant i <= |list| && post == if i < |list| then list[i] else null
      invariant Chain(cRes, nodes) && forall k :: 0 <= k < |nodes| ==> fresh(nodes[k])
      invariant Tallies(nodes) == Tallied(posts, i)
      invariant flag == 0 <==> nodes == []
      decreases |list| - i
    {
      assert PostingLists.Linked(list, i, list[0].owner);
      TalliedNext(posts, i);
      if flag == 0 {
        FirstTally(post.file);
        cRes := new CountNode(post.file);
        nodes := [cRes];
        flag := 1;
      } else {
        nodes := CountPosting(cRes, post.file, nodes);
      }
      post := post.next;
      i := i + 1;
    }
  }

  /** Exchange the payloads of the head and of node `m`. */
  method Exchange(cRes: CountNode, other: CountNode, ghost nodes: seq<CountNode>, ghost m: nat)
    requires Chain(cRes, nodes) && m < |nodes| && nodes[m] == other
    modifies cRes, other
    ensures Chain(cRes, nodes) && Tallies(nodes) == Exchanged(old(Tallies(nodes)), m)
  {
    var wordFrq, fileName := cRes.wordFrq, cRes.fileName;
    cRes.wordFrq := other.wordFrq;
    cRes.fileName := other.fileName;
    other.wordFrq := wordFrq;
    other.fileName := fileName;
    assert Tallies(nodes) == Exchanged(old(Tallies(nodes)), m);
  }

  /** The walk for the last maximum. */
  method FindLargest(cRes: CountNode, ghost nodes: seq<CountNode>)
    returns (largest: CountNode, flag: int, ghost m: nat)
    requires Chain(cRes, nodes)
    ensures LastMaximum(Tallies(nodes), m) && largest == nodes[m] && (flag == 1 || (flag == 0 && m == 0))
    ensures flag == 0 ==> largest == cRes
  {
    flag := 0;
    largest := cRes;
    var current := cRes;
    m := 0;
    ghost var ts := Tallies(nodes);
    ghost var k := 0;
    assert Linked(nodes, 0);
    while current.next != null
      invariant k < |nodes| && current == nodes[k] && Linked(nodes, k)
      invariant m <= k && largest == nodes[m]
      invariant flag == 1 || (flag == 0 && m == 0)
      invariant forall j :: 0 <= j <= k ==> ts[j].wordFrq <= ts[m].wordFrq
      invariant forall j :: m < j <= k ==> ts[j].wordFrq < ts[m].wordFrq
      decreases |nodes| - k
    {
      if largest.wordFrq <= current.next.wordFrq {
        largest := current.next;
        m := k + 1;
        flag := 1;
      }
      current := current.next;
      k := k + 1;
      assert Linked(nodes, k);
    }
  }

  method MaxFinder(cRes: CountNode?, ghost nodes: seq<CountNode>) returns (r: CountNode?, ghost m: nat)
    requires Chain(cRes, nodes)
    modifies nodes
    ensures r == cRes && Chain(r, nodes)
    ensures nodes != [] ==>
              LastMaximum(old(Tallies(nodes)), m) && Tallies(nodes) == Exchanged(old(Tallies(nodes)), m)
    ensures nodes != [] ==>
              var ts := old(Tallies(nodes));
              && m < |ts| && (forall j :: 0 <= j < |ts| ==> ts[j].wordFrq <= ts[m].wordFrq)
              && (forall j :: m < j < |ts| ==> ts[j].wordFrq < ts[m].wordFrq)
    ensures multiset(Tallies(nodes)) == multiset(old(Tallies(nodes)))
  {
    hide Exchanged;
    m := 0;
    if cRes == null {
      return cRes, m;
    }
    var largest, flag;
    largest, flag, m := FindLargest(cRes, nodes);
    ExchangeNone(Tallies(nodes));
    ExchangeIsPermutation(Tallies(nodes), m);
    if flag == 1 {
      Exchange(cRes, largest, nodes, m);
    }
    return cRes, m;
  }

  /** The walk for the first minimum. */
  method FindSmallest(cRes: CountNode, ghost nodes: seq<CountNode>)
    returns (smallest: CountNode, flag: int, ghost m: nat)
    requires Chain(cRes, nodes)
    ensures FirstMinimum(Tallies(nodes), m) && smallest == nodes[m] && (flag == 1 || (flag == 0 && m == 0))
    ensures flag == 0 ==> smallest == cRes
  {
    flag := 0;
    smallest := cRes;
    var current := cRes;
    m := 0;
    ghost var ts := Tallies(nodes);
    ghost var k := 0;
    assert Linked(nodes, 0);
    while current.next != null
      invariant k < |nodes| && current == nodes[k] && Linked(nodes, k)
      invariant m <= k && smallest == nodes[m]
      invariant flag == 1 || (flag == 0 && m == 0)
      invariant forall j :: 0 <= j <= k ==> ts[m].wordFrq <= ts[j].wordFrq
      invariant forall j :: 0 <= j < m ==> ts[m].wordFrq < ts[j].wordFrq
      decreases |nodes| - k
    {
      if smallest.wordFrq > current.next.wordFrq {
        smallest := current.next;
        m := k + 1;
        flag := 1;
      }
      current := current.next;
      k := k + 1;
      assert Linked(nodes, k);
    }
  }

  method MinFinder(cRes: CountNode?, ghost nodes: seq<CountNode>) returns (r: CountNode?, ghost m: nat)
    requires Chain(cRes, nodes)
    modifies nodes
    ensures r == cRes && Chain(r, nodes)
    ensures nodes != [] ==>
              FirstMinimum(old(Tallies(nodes)), m) && Tallies(nodes) == Exchanged(old(Tallies(nodes)), m)
    ensures nodes != [] ==>
              var ts := old(Tallies(nodes));
              && m < |ts| && (forall j :: 0 <= j < |ts| ==> ts[m].wordFrq <= ts[j].wordFrq)
              && (forall j :: 0 <= j < m ==> ts[m].wordFrq < ts[j].wordFrq)
    ensures multiset(Tallies(nodes)) == multiset(old(Tallies(nodes)))
  {
    hide Exchanged;
    m := 0;
    if cRes == null {
      return cRes, m;
    }
    var smallest, flag;
    smallest, flag, m := FindSmallest(cRes, nodes);
    ExchangeNone(Tallies(nodes));
    ExchangeIsPermutation(Tallies(nodes), m);
    if flag == 1 {
      Exchange(cRes, smallest, nodes, m);
    }
    return cRes, m;
  }

  /** The whole pipeline: the head names a file with the most postings, and how many they are. */
  lemma {:induction false} HeadOfMaximum(posts: seq<Posting>, m: nat)
    requires LastMaximum(Tallied(posts, |posts|), m)
    ensures var head := Exchanged(Tallied(posts, |posts|), m)[0];
            && head.wordFrq == PostingsOf(posts, |posts|, head.fileName)
            && (forall file :: PostingsOf(posts, |posts|, file) <= head.wordFrq)
  {
    var ts, n := Tallied(posts, |posts|), |posts|;
    TalliedAccounts(posts, n);
    forall file ensures PostingsOf(posts, n, file) <= ts[m].wordFrq {
      if file in FilesOf(posts, n) {
        var k :| 0 <= k < |ts| && FilesOf(posts, n)[k] == file;
        assert ts[k].fileName == file;
      } else {
        AbsentHasNone(posts, n, file);
        assert ts[m].wordFrq == PostingsOf(posts, n, ts[m].fileName);
      }
    }
  }

  /** And likewise for the fewest, among the files that have any. */
  lemma {:induction false} HeadOfMinimum(posts: seq<Posting>, m: nat)
    requires FirstMinimum(Tallied(posts, |posts|), m)
    ensures var head := Exchanged(Tallied(posts, |posts|), m)[0];
            && head.wordFrq == PostingsOf(posts, |posts|, head.fileName)
            && (forall p :: p in posts ==> head.wordFrq <= PostingsOf(posts, |posts|, p.file))
  {
    var ts, n := Tallied(posts, |posts|), |posts|;
    TalliedAccounts(posts, n);
    forall p | p in posts ensures ts[m].wordFrq <= PostingsOf(posts, n, p.file) {
      FileListed(posts, n, p);
      var k :| 0 <= k < |ts| && FilesOf(posts, n)[k] == p.file;
      assert ts[k].fileName == p.file;
    }
  }

  lemma {:induction false} FileListed(posts: seq<Posting>, n: nat, p: Posting)
    requires n <= |posts| && p in posts[..n]
    ensures p.file in FilesOf(posts, n)
  {
    if posts[n - 1] != p {
      assert p in posts[..n - 1];
      FileListed(posts, n - 1, p);
    }
  }

  /** MAXCOUNT for the postings of a word: a file with the most of them, and how many they are. */
  method MaxCount(post: PlistNode?, ghost list: seq<PlistNode>) returns (head: CountNode?)
    requires IsList(post, list)
    ensures head == null <==> list == []
    ensures head != null ==>
              var posts := Values(list);
              && head.wordFrq == PostingsOf(posts, |posts|, head.fileName)
              && forall file :: PostingsOf(posts, |posts|, file) <= head.wordFrq
  {
    ghost var posts := Values(list);
    var cRes, nodes := CreateCountResults(post, list);
    ghost var m;
    TallyForEach(posts);
    head, m := MaxFinder(cRes, nodes);
    if nodes != [] {
      HeadOfMaximum(posts, m);
      assert Tallies(nodes)[0] == Tally(head.fileName, head.wordFrq);
    }
  }

  /** MINCOUNT: a file with the fewest, among those that have any. */
  method MinCount(post: PlistNode?, ghost list: seq<PlistNode>) returns (head: CountNode?)
    requires IsList(post, list)
    ensures head == null <==> list == []
    ensures head != null ==>
              var posts := Values(list);
              && head.wordFrq == PostingsOf(posts, |posts|, head.fileName)
              && forall p :: p in posts ==> head.wordFrq <= PostingsOf(posts, |posts|, p.file)
  {
    ghost var posts := Values(list);
    var cRes, nodes := CreateCountResults(post, list);
    ghost var m;
    TallyForEach(posts);
    head, m := MinFinder(cRes, nodes);
    if nodes != [] {
      HeadOfMinimum(posts, m);
      assert Tallies(nodes)[0] == Tally(head.fileName, head.wordFrq);
    }
  }

  lemma {:induction false} TallyForEach(posts: seq<Posting>)
    ensures Tallied(posts, |posts|) == [] <==> posts == []
  {
  }
}
