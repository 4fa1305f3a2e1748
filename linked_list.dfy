/**
 * The focs doubly linked list (the `linklist_*` API): a chain of nodes, each
 * holding one element, with `head`, `tail` and `length` fields.
 *
 * The ghost sequence `Nodes` lists the chain's nodes head to tail and
 * `Contents` their elements; `Valid()` ties the real links to them:
 * following `next` from `head` visits `Nodes` in order and ends at `tail`,
 * following `prev` visits them backwards, and `length` counts them. Every
 * operation is specified by what it does to `Contents`, in terms of the
 * reference definitions of module ListSpec.
 */
module LinkList {
  import ListSpec

  /** An element, or the absent result (the C API's NULL pointer). */
  datatype Option<T> = None | Some(value: T)

  class Node<T> {
    var data: T
    var prev: Node?<T>
    var next: Node?<T>

    constructor (v: T)
      ensures data == v && prev == null && next == null
    {
      data := v;
      prev := null;
      next := null;
    }
  }

  class LinkedList<T(==)> {
    var head: Node?<T>
    var tail: Node?<T>
    var length: nat

    ghost var Contents: seq<T>
    ghost var Nodes: seq<Node<T>>
    ghost var Repr: set<object>

    ghost predicate Valid()
      reads this, Repr
      ensures Valid() ==> this in Repr
    {
      && this in Repr
      && (forall i :: 0 <= i < |Nodes| ==> Nodes[i] in Repr)
      && |Nodes| == |Contents| == length
      && (forall i, j :: 0 <= i < j < |Nodes| ==> Nodes[i] != Nodes[j])
      && (forall i {:trigger Nodes[i].data} :: 0 <= i < |Nodes| ==> Nodes[i].data == Contents[i])
      && (forall i {:trigger Nodes[i].prev} :: 0 <= i < |Nodes| ==> Nodes[i].prev == if i == 0 then null else Nodes[i - 1])
      && (forall i {:trigger Nodes[i].next} :: 0 <= i < |Nodes| ==> Nodes[i].next == if i + 1 == |Nodes| then null else Nodes[i + 1])
      && head == (if |Nodes| == 0 then null else Nodes[0])
      && tail == (if |Nodes| == 0 then null else Nodes[|Nodes| - 1])
    }

    /** linklist_alloc: a new, empty list. */
    constructor ()
      ensures Valid() && fresh(Repr)
      ensures Contents == [] && head == null && tail == null && length == 0
    {
      head, tail, length := null, null, 0;
      Contents, Nodes := [], [];
      Repr := {this};
    }

    /** linklist_null: the list holds no element (its head is null). */
    function IsNull(): (b: bool)
      reads this, Repr
      requires Valid()
      ensures b <==> Contents == []
      ensures b <==> length == 0
      ensures b <==> tail == null
    {
      head == null
    }

    /** linklist_push_head: the element becomes the new first element. */
    method PushHead(x: T)
      requires Valid()
      modifies Repr
      ensures Valid() && fresh(Repr - old(Repr))
      ensures Contents == [x] + old(Contents)
    {
      var n := new Node(x);
      n.next := head;
      if head == null {
        tail := n;
      } else {
        head.prev := n;
      }
      head := n;
      length := length + 1;
      Nodes := [n] + Nodes;
      Contents := [x] + Contents;
      Repr := Repr + {n};
    }

    /** linklist_push_tail: the element becomes the new last element. */
    method PushTail(x: T)
      requires Valid()
      modifies Repr
      ensures Valid() && fresh(Repr - old(Repr))
      ensures Contents == old(Contents) + [x]
    {
      var n := new Node(x);
      n.prev := tail;
      if tail == null {
        head := n;
      } else {
        tail.next := n;
      }
      tail := n;
      length := length + 1;
      Nodes := Nodes + [n];
      Contents := Contents + [x];
      Repr := Repr + {n};
    }

    /** Unlinks the node at position `k`, joining its neighbours. */
    method Detach(ghost k: nat, n: Node<T>)
      requires Valid() && k < |Nodes| && Nodes[k] == n
      modifies Repr
      ensures Valid() && Repr == old(Repr)
      ensures Nodes == ListSpec.RemoveAt(old(Nodes), k)
      ensures Contents == ListSpec.RemoveAt(old(Contents), k)
    {
      if n.prev == null {
        DetachFirst();
      } else {
        DetachAfter(k, n);
      }
    }

    /** Unlinks the first node; its successor, if any, becomes the head. */
    method DetachFirst()
      requires Valid() && |Nodes| > 0
      modifies Repr
      ensures Valid() && Repr == old(Repr)
      ensures Nodes == ListSpec.RemoveAt(old(Nodes), 0)
      ensures Contents == ListSpec.RemoveAt(old(Contents), 0)
    {
      ghost var ns := Nodes;
      var q := head.next;
      head := q;
      if q == null {
        tail := null;
      } else {
        q.prev := null;
      }
      length := length - 1;
      Nodes := ListSpec.RemoveAt(Nodes, 0);
      Contents := ListSpec.RemoveAt(Contents, 0);
      forall i | 0 <= i < |Nodes|
        ensures Nodes[i].next == if i + 1 == |Nodes| then null else Nodes[i + 1]
        ensures Nodes[i].prev == if i == 0 then null else Nodes[i - 1]
        ensures Nodes[i].data == Contents[i]
      {
        assert Nodes[i] == ns[i + 1];
      }
    }

    /** Unlinks the node at position `k`, which has a predecessor. */
    method DetachAfter(ghost k: nat, n: Node<T>)
      requires Valid() && 0 < k < |Nodes| && Nodes[k] == n
      modifies Repr
      ensures Valid() && Repr == old(Repr)
      ensures Nodes == ListSpec.RemoveAt(old(Nodes), k)
      ensures Contents == ListSpec.RemoveAt(old(Contents), k)
    {
      ghost var ns := Nodes;
      var p, q := n.prev, n.next;
      p.next := q;
      if q == null {
        tail := p;
      } else {
        q.prev := p;
      }
      length := length - 1;
      Nodes := ListSpec.RemoveAt(Nodes, k);
      Contents := ListSpec.RemoveAt(Contents, k);
      forall i | 0 <= i < |Nodes|
        ensures Nodes[i].next == if i + 1 == |Nodes| then null else Nodes[i + 1]
        ensures Nodes[i].prev == if i == 0 then null else Nodes[i - 1]
        ensures Nodes[i].data == Contents[i]
      {
        if i < k {
          assert Nodes[i] == ns[i] && ns[i] != q;
        } else {
          assert Nodes[i] == ns[i + 1] && ns[i + 1] != p;
        }
      }
    }

    /** The node at position `i`, reached by walking `next` from the head. */
    method NodeAt(i: nat) returns (n: Node<T>)
      requires Valid() && i < length
      ensures n == Nodes[i]
    {
      n := head;
      var j := 0;
      while j < i
        invariant j <= i && n == Nodes[j]
      {
        n := n.next;
        j := j + 1;
      }
    }

    /** linklist_pop_head: removes and returns the first element; absent on an empty list. */
    method PopHead() returns (r: Option<T>)
      requires Valid()
      modifies Repr
      ensures Valid() && Repr == old(Repr)
      ensures old(Contents) == [] ==> r == None && Contents == []
      ensures old(Contents) != [] ==> r == Some(old(Contents)[0]) && Contents == old(Contents)[1..]
    {
      if head == null {
        return None;
      }
      r := Some(head.data);
      DetachFirst();
    }

    /** linklist_pop_tail: removes and returns the last element; absent on an empty list. */
    method PopTail() returns (r: Option<T>)
      requires Valid()
      modifies Repr
      ensures Valid() && Repr == old(Repr)
      ensures old(Contents) == [] ==> r == None && Contents == []
      ensures old(Contents) != [] ==>
        r == Some(old(Contents)[|old(Contents)| - 1]) && Contents == old(Contents)[..|old(Contents)| - 1]
    {
      if tail == null {
        return None;
      }
      r := Some(tail.data);
      Detach(length - 1, tail);
    }

    /**
     * linklist_insert: places `x` so that it occupies position `i`, for any
     * `i` up to the length (`i == length` appends); an index past the end
     * is refused and nothing changes.
     */
    method Insert(x: T, i: nat) returns (ok: bool)
      requires Valid()
      modifies Repr
      ensures Valid() && fresh(Repr - old(Repr))
      ensures ok <==> i <= |old(Contents)|
      ensures ok ==> Contents == ListSpec.InsertAt(old(Contents), x, i)
      ensures !ok ==> Contents == old(Contents)
    {
      if i > length {
        return false;
      }
      if i == 0 {
        PushHead(x);
      } else if i == length {
        PushTail(x);
      } else {
        var m := NodeAt(i);
        LinkBefore(i, m, x);
      }
      ok := true;
    }

    /** Links a new node holding `x` just before the node at position `k`, which has a predecessor. */
    method LinkBefore(ghost k: nat, m: Node<T>, x: T)
      requires Valid() && 0 < k < |Nodes| && Nodes[k] == m
      modifies Repr
      ensures Valid() && fresh(Repr - old(Repr))
      ensures Contents == ListSpec.InsertAt(old(Contents), x, k)
    {
      ghost var ns := Nodes;
      var p := m.prev;
      var n := new Node(x);
      n.prev, n.next := p, m;
      p.next := n;
      m.prev := n;
      length := length + 1;
      Nodes := ListSpec.InsertAt(Nodes, n, k);
      Contents := ListSpec.InsertAt(Contents, x, k);
      Repr := Repr + {n};
      forall i | 0 <= i < |Nodes|
        ensures Nodes[i].next == if i + 1 == |Nodes| then null else Nodes[i + 1]
        ensures Nodes[i].prev == if i == 0 then null else Nodes[i - 1]
      {
        if i < k {
          assert Nodes[i] == ns[i];
        } else if i > k {
          assert Nodes[i] == ns[i - 1];
        }
      }
    }

    /** linklist_delete: drops the element at position `i`; false, and no change, when there is none. */
    method Delete(i: nat) returns (ok: bool)
      requires Valid()
      modifies Repr
      ensures Valid() && Repr == old(Repr)
      ensures ok <==> i < |old(Contents)|
      ensures ok ==> Contents == ListSpec.RemoveAt(old(Contents), i)
      ensures !ok ==> Contents == old(Contents)
    {
      if i >= length {
        return false;
      }
      var n := NodeAt(i);
      Detach(i, n);
      ok := true;
    }

    /**
     * linklist_remove: unlinks the element at position `i` and hands it to
     * the caller; absent, and no change, when there is none.
     */
    method Remove(i: nat) returns (r: Option<T>)
      requires Valid()
      modifies Repr
      ensures Valid() && Repr == old(Repr)
      ensures i < |old(Contents)| ==>
        r == Some(old(Contents)[i]) && Contents == ListSpec.RemoveAt(old(Contents), i)
      ensures i >= |old(Contents)| ==> r == None && Contents == old(Contents)
    {
      if i >= length {
        return None;
      }
      var n := NodeAt(i);
      r := Some(n.data);
      Detach(i, n);
    }

    /** linklist_fetch: a copy of the element at position `i`, or absent; the list is not changed. */
    method Fetch(i: nat) returns (r: Option<T>)
      requires Valid()
      ensures i < |Contents| ==> r == Some(Contents[i])
      ensures i >= |Contents| ==> r == None
    {
      if i >= length {
        return None;
      }
      var n := NodeAt(i);
      r := Some(n.data);
    }

    /** linklist_contains: some element equals `x`. */
    method Contains(x: T) returns (found: bool)
      requires Valid()
      ensures found <==> x in Contents
    {
      var cur := head;
      ghost var k: nat := 0;
      while cur != null
        invariant k <= |Nodes| && cur == (if k == |Nodes| then null else Nodes[k])
        invariant x !in Contents[..k]
        decreases |Nodes| - k
      {
        if cur.data == x {
          return true;
        }
        assert Contents[..k + 1] == Contents[..k] + [cur.data];
        cur, k := cur.next, k + 1;
      }
      assert Contents[..k] == Contents;
      return false;
    }

    /** linklist_any: scans head to tail and stops at the first element satisfying `p`. */
    method Any(p: T -> bool) returns (b: bool)
      requires Valid()
      ensures b <==> ListSpec.Any(p, Contents)
    {
      var cur := head;
      ghost var k: nat := 0;
      while cur != null
        invariant k <= |Nodes| && cur == (if k == |Nodes| then null else Nodes[k])
        invariant forall i :: 0 <= i < k ==> !p(Contents[i])
        decreases |Nodes| - k
      {
        if p(cur.data) {
          return true;
        }
        cur, k := cur.next, k + 1;
      }
      return false;
    }

    /**
     * linklist_all: scans head to tail and stops at the first element
     * failing `p`; an empty list answers false.
     */
    method All(p: T -> bool) returns (b: bool)
      requires Valid()
      ensures b <==> ListSpec.All(p, Contents)
    {
      if head == null {
        return false;
      }
      var cur := head;
      ghost var k: nat := 0;
      while cur != null
        invariant k <= |Nodes| && cur == (if k == |Nodes| then null else Nodes[k])
        invariant forall i :: 0 <= i < k ==> p(Contents[i])
        decreases |Nodes| - k
      {
        if !p(cur.data) {
          return false;
        }
        cur, k := cur.next, k + 1;
      }
      return true;
    }

    /**
     * Visits the node at position `k` for linklist_filter: keeps it when its
     * element satisfies `p` and unlinks it otherwise; returns the node to
     * visit next, which then sits at position `k + 1` or `k` respectively.
     */
    method FilterVisit(p: T -> bool, ghost k: nat, cur: Node<T>) returns (nxt: Node?<T>, kept: bool)
      requires Valid() && k < |Nodes| && Nodes[k] == cur
      modifies Repr
      ensures Valid() && Repr == old(Repr)
      ensures kept <==> p(old(Contents)[k])
      ensures kept ==> Contents == old(Contents) && nxt == (if k + 1 == |Nodes| then null else Nodes[k + 1])
      ensures !kept ==> Contents == ListSpec.RemoveAt(old(Contents), k)
      ensures !kept ==> nxt == (if k == |Nodes| then null else Nodes[k])
    {
      nxt := cur.next;
      kept := p(cur.data);
      if !kept {
        Detach(k, cur);
      }
    }

    /**
     * linklist_filter: unlinks, head to tail, every element failing `p`;
     * reports whether anything was removed.
     */
    method Filter(p: T -> bool) returns (changed: bool)
      requires Valid()
      modifies Repr
      ensures Valid() && Repr == old(Repr)
      ensures Contents == ListSpec.Filter(p, old(Contents))
      ensures changed <==> exists i :: 0 <= i < |old(Contents)| && !p(old(Contents)[i])
    {
      ghost var s := Contents;
      var cur := head;
      ghost var j: nat, k: nat := 0, 0;
      changed := false;
      while cur != null
        invariant Valid() && Repr == old(Repr)
        invariant j <= |s| && k == |ListSpec.Filter(p, s[..j])|
        invariant Contents == ListSpec.Filter(p, s[..j]) + s[j..]
        invariant k <= |Nodes| && cur == (if k == |Nodes| then null else Nodes[k])
        invariant changed <==> k < j
        decreases |s| - j
      {
        ghost var c := Contents;
        var kept;
        cur, kept := FilterVisit(p, k, cur);
        ListSpec.FilterStep(p, s, j, c, kept, Contents);
        if kept {
          k := k + 1;
        } else {
          changed := true;
        }
        j := j + 1;
      }
      assert s[..j] == s;
      ListSpec.FilterShrinks(p, s);
    }

    /**
     * linklist_drop_while: unlinks elements from the head while they
     * satisfy `p`; reports whether anything was removed.
     */
    method DropWhile(p: T -> bool) returns (changed: bool)
      requires Valid()
      modifies Repr
      ensures Valid() && Repr == old(Repr)
      ensures Contents == ListSpec.DropWhile(p, old(Contents))
      ensures changed <==> old(Contents) != [] && p(old(Contents)[0])
    {
      ghost var s := Contents;
      changed := false;
      while head != null && p(head.data)
        invariant Valid() && Repr == old(Repr)
        invariant ListSpec.DropWhile(p, Contents) == ListSpec.DropWhile(p, s)
        invariant |Contents| <= |s| && Contents == s[|s| - |Contents|..]
        invariant changed <==> |Contents| < |s|
        decreases |Contents|
      {
        ghost var c := Contents;
        var _ := PopHead();
        changed := true;
      }
      ListSpec.DropWhileChanges(p, s);
    }

    /** The position of the first element failing `p` (the length when there is none). */
    method FirstFailure(p: T -> bool) returns (k: nat)
      requires Valid()
      ensures k <= |Contents|
      ensures forall i :: 0 <= i < k ==> p(Contents[i])
      ensures k == |Contents| || !p(Contents[k])
    {
      var cur := head;
      k := 0;
      while cur != null && p(cur.data)
        invariant k <= |Nodes| && cur == (if k == |Nodes| then null else Nodes[k])
        invariant forall i :: 0 <= i < k ==> p(Contents[i])
        decreases |Nodes| - k
      {
        cur, k := cur.next, k + 1;
      }
    }

    /** Unlinks elements from the tail until only the first `k` remain. */
    method Truncate(k: nat)
      requires Valid() && k <= |Contents|
      modifies Repr
      ensures Valid() && Repr == old(Repr)
      ensures Contents == old(Contents)[..k]
    {
      while length > k
        invariant Valid() && Repr == old(Repr)
        invariant k <= |Contents| <= |old(Contents)| && Contents == old(Contents)[..|Contents|]
        decreases |Contents|
      {
        ghost var c := Contents;
        var _ := PopTail();
        assert Contents == c[..|c| - 1];
      }
    }

    /**
     * linklist_take_while: finds the first element failing `p` and unlinks
     * it and everything after it; reports whether anything was removed.
     */
    method TakeWhile(p: T -> bool) returns (changed: bool)
      requires Valid()
      modifies Repr
      ensures Valid() && Repr == old(Repr)
      ensures Contents == ListSpec.TakeWhile(p, old(Contents))
      ensures changed <==> exists i :: 0 <= i < |old(Contents)| && !p(old(Contents)[i])
    {
      ghost var s := Contents;
      var k := FirstFailure(p);
      ListSpec.SplitAtFirstFailure(p, s, k);
      ListSpec.TakeWhileChanges(p, s);
      changed := k < length;
      Truncate(k);
    }

    /**
     * linklist_map: replaces, head to tail, each element by what `f` hands
     * back, whether `f` changed the element in place or returned a fresh one.
     */
    method Map(f: T -> ListSpec.Update<T>)
      requires Valid()
      modifies Repr
      ensures Valid() && Repr == old(Repr)
      ensures Nodes == old(Nodes)
      ensures Contents == ListSpec.Map(f, old(Contents))
    {
      ghost var s := Contents;
      var cur := head;
      ghost var k: nat := 0;
      while cur != null
        invariant Valid() && Repr == old(Repr) && Nodes == old(Nodes)
        invariant k <= |Nodes| && cur == (if k == |Nodes| then null else Nodes[k])
        invariant |Contents| == |s|
        invariant forall i :: 0 <= i < k ==> Contents[i] == f(s[i]).value
        invariant forall i :: k <= i < |s| ==> Contents[i] == s[i]
        decreases |Nodes| - k
      {
        cur.data := f(cur.data).value;
        Contents := Contents[k := cur.data];
        cur, k := cur.next, k + 1;
      }
    }

    /**
     * linklist_foldl: threads an accumulator, seeded with a copy of
     * `init`, through `f(acc, element)` from head to tail.
     */
    method FoldL(f: (T, T) -> ListSpec.Update<T>, init: T) returns (acc: T)
      requires Valid()
      ensures acc == ListSpec.FoldL(f, init, Contents)
    {
      acc := init;
      var cur := head;
      ghost var k: nat := 0;
      while cur != null
        invariant k <= |Nodes| && cur == (if k == |Nodes| then null else Nodes[k])
        invariant ListSpec.FoldL(f, acc, Contents[k..]) == ListSpec.FoldL(f, init, Contents)
        decreases |Nodes| - k
      {
        assert Contents[k..][1..] == Contents[k + 1..];
        acc := f(acc, cur.data).value;
        cur, k := cur.next, k + 1;
      }
    }

    /**
     * linklist_foldr: threads an accumulator, seeded with a copy of
     * `init`, through `f(element, acc)` from tail to head.
     */
    method FoldR(f: (T, T) -> ListSpec.Update<T>, init: T) returns (acc: T)
      requires Valid()
      ensures acc == ListSpec.FoldR(f, init, Contents)
    {
      acc := init;
      var cur := tail;
      ghost var k: nat := |Nodes|;
      while cur != null
        invariant k <= |Nodes| && cur == (if k == 0 then null else Nodes[k - 1])
        invariant acc == ListSpec.FoldR(f, init, Contents[k..])
        decreases k
      {
        assert Contents[k - 1..][1..] == Contents[k..];
        acc := f(cur.data, acc).value;
        cur, k := cur.prev, k - 1;
      }
    }
  }
}
