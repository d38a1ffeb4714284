/** The linked lists of pages. */
module PageLists {

  /** A list cell is filled in once, by `list_add`. */
  class ListNode {
    const page: string
    const next: ListNode?
    ghost const length: nat

    constructor (page: string, next: ListNode?)
      ensures this.page == page && this.next == next && length == Length(next) + 1
    {
      this.page := page;
      this.next := next;
      this.length := Length(next) + 1;
    }
  }

  ghost function Length(l: ListNode?): nat {
    if l == null then 0 else l.length
  }

  ghost predicate Linked(l: ListNode?)
    decreases Length(l)
  {
    l == null || (l.length == Length(l.next) + 1 && Linked(l.next))
  }

  ghost function Pages(l: ListNode?): seq<string>
    requires Linked(l)
    decreases Length(l)
  {
    if l == null then [] else [l.page] + Pages(l.next)
  }

  class PageList {
    var head: ListNode?

    ghost predicate Valid()
      reads this
    {
      Linked(head)
    }

    ghost function Contents(): seq<string>
      requires Valid()
      reads this
    {
      Pages(head)
    }

    constructor ()
      ensures Valid() && Contents() == []
    {
      head := null;
    }

    method Add(newPage: string)
      requires Valid()
      modifies this
      ensures Valid() && Contents() == [newPage] + old(Contents())
    {
      var temp := new ListNode(newPage, head);
      head := temp;
    }

    method Rem() returns (page: string)
      requires Valid() && Contents() != []
      modifies this
      ensures Valid() && [page] + Contents() == old(Contents())
    {
      page := head.page;
      head := head.next;
    }

    method Empty() returns (empty: bool)
      requires Valid()
      ensures empty <==> Contents() == []
    {
      empty := head == null;
    }

    method Check(newPage: string) returns (found: bool)
      requires Valid()
      ensures found <==> newPage in Contents()
    {
      var l := head;
      while l != null
        invariant Linked(l)
        invariant newPage in Contents() <==> newPage in Pages(l)
        decreases Length(l)
      {
        if l.page == newPage {
          return true;
        }
        l := l.next;
      }
      return false;
    }
  }
}
