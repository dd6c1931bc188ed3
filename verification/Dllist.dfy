/** The doubly linked list of dllist.c: links rewritten in place, each operation refining its operation on sequences. */
module Dllist {

  class Link {
    var next: Link?
    var prev: Link?

    constructor ()
      ensures next == null && prev == null
    {
      next, prev := null, null;
    }
  }

  predicate Distinct(s: seq<Link>) {
    forall i, j :: 0 <= i < j < |s| ==> s[i] != s[j]
  }

  function At(s: seq<Link>, i: int): Link? {
    if 0 <= i < |s| then s[i] else null
  }

  /** Every link is that of its place in s. */
  ghost predicate Linked(s: seq<Link>)
    reads s
  {
    && (forall i {:trigger s[i].next} :: 0 <= i < |s| ==> s[i].next == At(s, i + 1))
    && (forall i {:trigger s[i].prev} :: 0 <= i < |s| ==> s[i].prev == At(s, i - 1))
  }

  function Without(s: seq<Link>, k: nat): seq<Link>
    requires k < |s|
  {
    s[..k] + s[k + 1..]
  }

  function With(s: seq<Link>, k: nat, x: Link): seq<Link>
    requires k <= |s|
  {
    s[..k] + [x] + s[k..]
  }

  lemma WithAt(s: seq<Link>, k: nat, x: Link)
    requires k <= |s| && Distinct(s) && x !in s
    ensures Distinct(With(s, k, x)) && |With(s, k, x)| == |s| + 1
    ensures forall i :: 0 <= i <= |s| ==> With(s, k, x)[i] == if i < k then s[i] else if i == k then x else s[i - 1]
  {
  }

  lemma WithoutAt(s: seq<Link>, k: nat)
    requires k < |s| && Distinct(s)
    ensures Distinct(Without(s, k)) && |Without(s, k)| == |s| - 1 && s[k] !in Without(s, k)
    ensures forall i :: 0 <= i < |s| - 1 ==> Without(s, k)[i] == if i < k then s[i] else s[i + 1]
    ensures forall x :: x in Without(s, k) ==> x in s
  {
  }

  /** With the links around place k, and those of the item, rewritten, the item is at place k. */
  lemma Inserted(s: seq<Link>, k: nat, item: Link)
    requires k <= |s| && Distinct(s) && item !in s
    requires forall i {:trigger s[i].next} :: 0 <= i < |s| ==> s[i].next == if i == k - 1 then item else At(s, i + 1)
    requires forall i {:trigger s[i].prev} :: 0 <= i < |s| ==> s[i].prev == if i == k then item else At(s, i - 1)
    requires item.next == At(s, k) && item.prev == At(s, k - 1)
    ensures Linked(With(s, k, item)) && Distinct(With(s, k, item))
  {
    WithAt(s, k, item);
    hide With;
    var r := With(s, k, item);
    forall i | 0 <= i < |r| ensures r[i].next == At(r, i + 1) && r[i].prev == At(r, i - 1) {
      if i < k {
        assert r[i] == s[i];
      } else if i > k {
        assert r[i] == s[i - 1];
      }
    }
  }

  /** With the neighbours of place k joined, its item is out. */
  lemma Removed(s: seq<Link>, k: nat)
    requires k < |s| && Distinct(s)
    requires forall i {:trigger s[i].next} :: 0 <= i < |s| && i != k ==>
               s[i].next == At(s, if i == k - 1 then k + 1 else i + 1)
    requires forall i {:trigger s[i].prev} :: 0 <= i < |s| && i != k ==>
               s[i].prev == At(s, if i == k + 1 then k - 1 else i - 1)
    ensures Linked(Without(s, k)) && Distinct(Without(s, k))
  {
    WithoutAt(s, k);
    hide Without;
    var r := Without(s, k);
    forall i | 0 <= i < |r| ensures r[i].next == At(r, i + 1) && r[i].prev == At(r, i - 1) {
      var j := if i < k then i else i + 1;
      assert r[i] == s[j];
    }
  }

  class List {
    var head: Link?
    var tail: Link?
    ghost var items: seq<Link>

    /** Head, tail and every link are those of the sequence of items. */
    ghost predicate Valid()
      reads this, items
    {
      Distinct(items) && head == At(items, 0) && tail == At(items, |items| - 1) && Linked(items)
    }

    constructor ()
      ensures Valid() && items == []
    {
      head, tail, items := null, null, [];
    }

    method LinkToHead(item: Link)
      requires Valid() && item !in items
      modifies this, items, item
      ensures Valid() && items == With(old(items), 0, item)
    {
      if head == null {
        tail := item;
        item.next := null;
      } else {
        head.prev := item;
        item.next := head;
      }
      head := item;
      item.prev := null;
      Inserted(items, 0, item);
      items := With(items, 0, item);
    }

    method LinkToTail(item: Link)
      requires Valid() && item !in items
      modifies this, items, item
      ensures Valid() && items == With(old(items), |old(items)|, item)
    {
      if tail == null {
        head := item;
        item.prev := null;
      } else {
        tail.next := item;
        item.prev := tail;
      }
      tail := item;
      item.next := null;
      Inserted(items, |items|, item);
      items := With(items, |items|, item);
    }

    method Unlink(item: Link, ghost k: nat)
      requires Valid() && k < |items| && items[k] == item
      modifies this, items
      ensures Valid() && items == Without(old(items), k) && item.next == null && item.prev == null
    {
      assert item.prev == At(items, k - 1) && item.next == At(items, k + 1);
      assert At(items, k - 1) != item && At(items, k + 1) != item;
      if item.prev == null {
        head := item.next;
      } else {
        item.prev.next := item.next;
      }
      if item.next == null {
        tail := item.prev;
      } else {
        item.next.prev := item.prev;
      }
      item.next := null;
      item.prev := null;
      Removed(items, k);
      items := Without(items, k);
    }

    method InsertLinkBefore(after: Link, item: Link, ghost k: nat)
      requires Valid() && k < |items| && items[k] == after && item !in items
      modifies this, items, item
      ensures Valid() && items == With(old(items), k, item)
    {
      var before := after.prev;
      assert before == At(items, k - 1);
      if before != null {
        before.next := item;
      } else {
        head := item;
      }
      item.next := after;
      after.prev := item;
      item.prev := before;
      Inserted(items, k, item);
      items := With(items, k, item);
    }

    method InsertLinkAfter(before: Link, item: Link, ghost k: nat)
      requires Valid() && k < |items| && items[k] == before && item !in items
      modifies this, items, item
      ensures Valid() && items == With(old(items), k + 1, item)
    {
      var after := before.next;
      assert after == At(items, k + 1);
      if after != null {
        after.prev := item;
      } else {
        tail := item;
      }
      before.next := item;
      item.prev := before;
      item.next := after;
      Inserted(items, k + 1, item);
      items := With(items, k + 1, item);
    }
  }

  /** The source and destination may be the same list. */
  method MoveLink(dest: List, src: List, item: Link, ghost k: nat)
    requires src.Valid() && dest.Valid() && k < |src.items| && src.items[k] == item
    requires dest == src || forall x :: x in src.items ==> x !in dest.items
    modifies src, dest, src.items, dest.items
    ensures src.Valid() && dest.Valid()
    ensures dest != src ==> src.items == Without(old(src.items), k) && dest.items == With(old(dest.items),
        |old(dest.items)|, item)
    ensures dest == src ==> src.items == With(Without(old(src.items), k), |old(src.items)| - 1, item)
  {
    WithoutAt(src.items, k);
    hide Distinct, Without, With;
    ghost var others := dest.items;
    assert dest != src ==> forall i :: 0 <= i < |others| ==> others[i] !in src.items;
    src.Unlink(item, k);
    assert dest != src ==> dest.items == others && Linked(others);
    ghost var rest := src.items;
    assert dest != src ==> forall i :: 0 <= i < |rest| ==> rest[i] !in others && rest[i] != item;
    dest.LinkToTail(item);
    assert dest != src ==> src.items == rest && Linked(rest);
  }
}
