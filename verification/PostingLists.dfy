/** Posting lists as the trie nodes hold them: linked nodes, grown in place. */
module PostingLists {
  import opened Postings

  class PlistNode {
    const textId: int
    const file: string
    var wordFrq: int
    var next: PlistNode?
    /** The trie node whose list this node was made for, and its place there. */
    ghost const owner: object
    ghost const place: nat

    constructor (textId: int, file: string, ghost owner: object, ghost place: nat)
      ensures this.textId == textId && this.file == file && wordFrq == 1 && next == null
      ensures this.owner == owner && this.place == place
    {
      this.textId, this.file, wordFrq, next := textId, file, 1, null;
      this.owner, this.place := owner, place;
    }
  }

  ghost predicate Linked(list: seq<PlistNode>, k: nat, owner: object)
    requires k < |list|
    reads list[k]
  {
    && list[k].owner == owner
    && list[k].place == k
    && list[k].next == if k + 1 < |list| then list[k + 1] else null
  }

  /** `list` are the nodes of the list at `head`, in order; each was made for it and for its place. */
  ghost predicate Chain(head: PlistNode?, list: seq<PlistNode>, owner: object)
    reads list
  {
    && head == (if list == [] then null else list[0])
    && (forall k :: 0 <= k < |list| ==> Linked(list, k, owner))
  }

  /** `list` are the nodes of the list at `head`, whoever it belongs to. */
  ghost predicate IsList(head: PlistNode?, list: seq<PlistNode>)
    reads list
  {
    if list == [] then head == null else Chain(head, list, list[0].owner)
  }

  ghost function Values(list: seq<PlistNode>): (ps: seq<Posting>)
    reads list
    ensures |ps| == |list|
    ensures forall k :: 0 <= k < |list| ==> ps[k] == Posting(list[k].textId, list[k].file, list[k].wordFrq)
  {
    seq(|list|, k requires 0 <= k < |list| reads list => Posting(list[k].textId, list[k].file, list[k].wordFrq))
  }

  method Increment(cur: PlistNode, ghost head: PlistNode?, ghost list: seq<PlistNode>, ghost owner: object,
                   ghost k: nat)
    requires Chain(head, list, owner) && k < |list| && list[k] == cur
    modifies cur`wordFrq
    ensures Chain(head, list, owner)
    ensures var ps := old(Values(list)); Values(list) == ps[k := ps[k].(wordFrq := ps[k].wordFrq + 1)]
  {
    cur.wordFrq := cur.wordFrq + 1;
    forall i | 0 <= i < |list| ensures Linked(list, i, owner) && (list[i] == cur <==> i == k) {
      assert old(Linked(list, i, owner)) && old(Linked(list, k, owner));
    }
  }

  method Append(last: PlistNode, id: int, file: string, ghost head: PlistNode?, ghost list0: seq<PlistNode>,
                ghost owner: object)
    returns (ghost list: seq<PlistNode>)
    requires Chain(head, list0, owner) && list0 != [] && list0[|list0| - 1] == last
    modifies last`next
    ensures Chain(head, list, owner) && |list| == |list0| + 1 && list0 <= list && fresh(list[|list0|])
    ensures Values(list) == old(Values(list0)) + [Posting(id, file, 1)]
  {
    var added := new PlistNode(id, file, owner, |list0|);
    last.next := added;
    list := list0 + [added];
    forall i | 0 <= i < |list| ensures Linked(list, i, owner) {
      if i < |list0| {
        assert old(Linked(list0, i, owner)) && old(Linked(list0, |list0| - 1, owner));
      }
    }
  }

  /** The scan of a list that has a node, for line `id` of `file`: count it there, or append it after the last. */
  method Bump(head: PlistNode, id: int, file: string, ghost list0: seq<PlistNode>, ghost owner: object)
    returns (ghost list: seq<PlistNode>)
    requires Chain(head, list0, owner) && list0 != []
    modifies list0
    ensures Chain(head, list, owner) && list0 <= list && forall k :: |list0| <= k < |list| ==> fresh(list[k])
    ensures Values(list) == AddPosting(old(Values(list0)), id, file)
  {
    list := list0;
    ghost var ps := Values(list0);
    var cur := head;
    ghost var k := 0;
    while true
      invariant k < |list0| && cur == list0[k]
      invariant forall i :: 0 <= i < k ==> !Lists(ps, i, id, file)
      decreases |list0| - k
    {
      assert Linked(list0, k, owner);
      if cur.textId == id && cur.file == file {
        assert Lists(ps, k, id, file);
        AddPostingAt(ps, k, id, file);
        Increment(cur, head, list0, owner, k);
        return;
      }
      if cur.next == null {
        AddPostingNew(ps, id, file);
        list := Append(cur, id, file, head, list0, owner);
        return;
      }
      cur := cur.next;
      k := k + 1;
    }
  }
}
