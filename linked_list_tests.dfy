/**
 * The scenarios of the focs linked list unit tests (test/list/linked_list.c),
 * run against the LinkedList class: each method builds a list with the
 * calls a test makes and states, in its postcondition, what the test
 * asserts about the results. The callbacks those tests pass to the list
 * are defined here too, over byte-sized integers.
 */
module LinkedListTests {
  import ListSpec
  import LinkList

  // ---------------------------------------------------------------------
  // Byte-sized element values
  // ---------------------------------------------------------------------

  /** Conversion to `uint8_t`: reduction modulo 256. */
  function U8(x: int): (r: int)
    ensures 0 <= r < 256
    ensures (x - r) % 256 == 0
    ensures 0 <= x < 256 ==> r == x
  {
    x % 256
  }

  /** Conversion to `int8_t`, as two's complement wrap-around into [-128, 128). */
  function I8(x: int): (r: int)
    ensures -128 <= r < 128
    ensures (x - r) % 256 == 0
    ensures -128 <= x < 128 ==> r == x
  {
    (x + 128) % 256 - 128
  }

  // ---------------------------------------------------------------------
  // The test callbacks
  // ---------------------------------------------------------------------

  /** pred_gte1: the element is at least 1; for a `uint8_t`, it is not 0. */
  function PredGte1(n: int): (b: bool)
    ensures 0 <= n < 256 ==> (b <==> n != 0)
  {
    n >= 1
  }

  /**
   * pred_lte1: the element is at most 1. Every element satisfies one of
   * the two test predicates, and only 1 satisfies both.
   */
  function PredLte1(n: int): (b: bool)
    ensures 0 <= n < 256 ==> (b <==> n == 0 || n == 1)
    ensures b || PredGte1(n)
    ensures b && PredGte1(n) <==> n == 1
  {
    n <= 1
  }

  /** map_fn: increments the element in place and hands back the same buffer. */
  function MapFn(n: int): (u: ListSpec.Update<int>)
    ensures u.Mutated?
    ensures 0 <= u.value < 256 && (u.value - (n + 1)) % 256 == 0
    ensures n == 255 ==> u.value == 0
  {
    ListSpec.Mutated(U8(n + 1))
  }

  /**
   * map_fn_newptr: hands back a fresh buffer holding the incremented
   * element; the value is the one map_fn leaves in place.
   */
  function MapFnNewPtr(n: int): (u: ListSpec.Update<int>)
    ensures u.Replaced?
    ensures u.value == MapFn(n).value
  {
    ListSpec.Replaced(U8(n + 1))
  }

  /** foldl_fn: stores `acc - c`, wrapped to `int8_t`, into the accumulator it was given. */
  function FoldlFn(acc: int, c: int): (u: ListSpec.Update<int>)
    ensures u.Mutated?
    ensures -128 <= u.value < 128 && (u.value - (acc - c)) % 256 == 0
  {
    ListSpec.Mutated(I8(acc - c))
  }

  /** foldr_fn: stores `c - acc`, wrapped to `int8_t`, into the accumulator it was given. */
  function FoldrFn(c: int, acc: int): (u: ListSpec.Update<int>)
    ensures u.Mutated?
    ensures -128 <= u.value < 128 && (u.value - (c - acc)) % 256 == 0
  {
    ListSpec.Mutated(I8(c - acc))
  }

  /**
   * generic_fold_fn: returns a fresh buffer holding `a - b`; the value is
   * the one foldl_fn (accumulator first) and foldr_fn (element first) store
   * in place.
   */
  function GenericFoldFn(a: int, b: int): (u: ListSpec.Update<int>)
    ensures u.Replaced?
    ensures u.value == FoldlFn(a, b).value && u.value == FoldrFn(a, b).value
  {
    ListSpec.Replaced(I8(a - b))
  }

  /** A list holding `xs`, built by pushing each element at the tail. */
  method FromSeq(xs: seq<int>) returns (l: LinkList.LinkedList<int>)
    ensures l.Valid() && fresh(l.Repr)
    ensures l.Contents == xs
  {
    l := new LinkList.LinkedList();
    var i := 0;
    while i < |xs|
      invariant i <= |xs|
      invariant l.Valid() && fresh(l.Repr)
      invariant l.Contents == xs[..i]
    {
      l.PushTail(xs[i]);
      assert xs[..i + 1] == xs[..i] + [xs[i]];
      i := i + 1;
    }
    assert xs[..i] == xs;
  }

  // ---------------------------------------------------------------------
  // Scenarios
  // ---------------------------------------------------------------------

  /** test_linklist_alloc, test_linklist_null_*: a new list is empty; one push makes it non-empty. */
  method AllocAndNull() returns (len: nat, nullNew: bool, nullPushed: bool)
    ensures len == 0 && nullNew && !nullPushed
  {
    var l := new LinkList.LinkedList<int>();
    len := l.length;
    nullNew := l.IsNull();
    l.PushHead(1);
    nullPushed := l.IsNull();
  }

  /**
   * test_linklist_push_head_multiple: pushing 1, 2, 3 at the head and
   * walking `next` from the head meets 3, 2, 1 and then the end.
   */
  method PushHeadOrder() returns (len: nat, first: int, second: int, third: int, last: bool)
    ensures len == 3
    ensures first == 3 && second == 2 && third == 1 && last
  {
    var l := new LinkList.LinkedList<int>();
    l.PushHead(1);
    l.PushHead(2);
    l.PushHead(3);
    assert l.Contents == [3, 2, 1];
    len := l.length;
    var cur := l.head;
    first := cur.data;
    cur := cur.next;
    second := cur.data;
    cur := cur.next;
    third := cur.data;
    last := cur.next == null;
  }

  /**
   * test_linklist_push_tail_multiple: pushing 1, 2, 3 at the tail and
   * walking `next` from the head meets 1, 2, 3 and then the end.
   */
  method PushTailOrder() returns (len: nat, first: int, second: int, third: int, last: bool)
    ensures len == 3
    ensures first == 1 && second == 2 && third == 3 && last
  {
    var l := new LinkList.LinkedList<int>();
    l.PushTail(1);
    l.PushTail(2);
    l.PushTail(3);
    assert l.Contents == [1, 2, 3];
    len := l.length;
    var cur := l.head;
    first := cur.data;
    cur := cur.next;
    second := cur.data;
    cur := cur.next;
    third := cur.data;
    last := cur.next == null;
  }

  /**
   * test_linklist_pop_head_*: popping an empty list yields nothing; popping
   * [3, 2, 1] (pushed at the head) yields 3, 2, 1 and leaves it empty.
   */
  method PopHeadSequence() returns (none: LinkList.Option<int>, outs: seq<LinkList.Option<int>>, isNull: bool)
    ensures none == LinkList.None
    ensures outs == [LinkList.Some(3), LinkList.Some(2), LinkList.Some(1)]
    ensures isNull
  {
    var l := new LinkList.LinkedList<int>();
    none := l.PopHead();
    l.PushHead(1);
    l.PushHead(2);
    l.PushHead(3);
    var o1 := l.PopHead();
    var o2 := l.PopHead();
    var o3 := l.PopHead();
    outs := [o1, o2, o3];
    isNull := l.IsNull();
  }

  /**
   * test_linklist_pop_tail_*: popping an empty list yields nothing; popping
   * [1, 2, 3] (pushed at the tail) yields 3, 2, 1 and leaves it empty.
   */
  method PopTailSequence() returns (none: LinkList.Option<int>, outs: seq<LinkList.Option<int>>, isNull: bool)
    ensures none == LinkList.None
    ensures outs == [LinkList.Some(3), LinkList.Some(2), LinkList.Some(1)]
    ensures isNull
  {
    var l := new LinkList.LinkedList<int>();
    none := l.PopTail();
    l.PushTail(1);
    l.PushTail(2);
    l.PushTail(3);
    var o1 := l.PopTail();
    var o2 := l.PopTail();
    var o3 := l.PopTail();
    outs := [o1, o2, o3];
    isNull := l.IsNull();
  }

  /**
   * test_linklist_insert_multiple: inserting 1 at 0, 3 at 1, 2 at 1 and 4
   * at 0 succeeds every time and builds [4, 1, 2, 3]; an index past the
   * end is refused.
   */
  method InsertOutOfOrder() returns (oks: seq<bool>, past: bool, len: nat, outs: seq<LinkList.Option<int>>)
    ensures oks == [true, true, true, true] && !past && len == 4
    ensures outs == [LinkList.Some(4), LinkList.Some(1), LinkList.Some(2), LinkList.Some(3)]
  {
    var l := new LinkList.LinkedList<int>();
    var r1 := l.Insert(1, 0);
    var r2 := l.Insert(3, 1);
    var r3 := l.Insert(2, 1);
    var r4 := l.Insert(4, 0);
    past := l.Insert(5, 5);
    oks := [r1, r2, r3, r4];
    len := l.length;
    assert l.Contents == [4, 1, 2, 3];
    var o1 := l.PopHead();
    var o2 := l.PopHead();
    var o3 := l.PopHead();
    var o4 := l.PopHead();
    outs := [o1, o2, o3, o4];
  }

  /**
   * test_linklist_delete_*: deleting from an empty list fails at any index;
   * deleting positions 2, 0, 1, 0 of [1, 2, 3, 4] succeeds and empties it,
   * after which a further delete fails.
   */
  method DeleteOutOfOrder() returns (onEmpty: seq<bool>, oks: seq<bool>, isNull: bool)
    ensures onEmpty == [false, false]
    ensures oks == [true, true, true, true, false]
    ensures isNull
  {
    var e := new LinkList.LinkedList<int>();
    var e1 := e.Delete(0);
    var e2 := e.Delete(1);
    onEmpty := [e1, e2];
    var l := FromSeq([1, 2, 3, 4]);
    var r1 := l.Delete(2);
    assert l.Contents == [1, 2, 4];
    var r2 := l.Delete(0);
    assert l.Contents == [2, 4];
    var r3 := l.Delete(1);
    var r4 := l.Delete(0);
    var r5 := l.Delete(0);
    oks := [r1, r2, r3, r4, r5];
    isNull := l.IsNull();
  }

  /**
   * test_linklist_remove_multiple: removing positions 2, 0, 1, 0, 0 of
   * [1, 2, 3, 4] hands back 3, 1, 4, 2 and then nothing.
   */
  method RemoveOutOfOrder() returns (outs: seq<LinkList.Option<int>>, isNull: bool)
    ensures outs == [LinkList.Some(3), LinkList.Some(1), LinkList.Some(4), LinkList.Some(2), LinkList.None]
    ensures isNull
  {
    var l := FromSeq([1, 2, 3, 4]);
    var o1 := l.Remove(2);
    assert l.Contents == [1, 2, 4];
    var o2 := l.Remove(0);
    assert l.Contents == [2, 4];
    var o3 := l.Remove(1);
    var o4 := l.Remove(0);
    var o5 := l.Remove(0);
    outs := [o1, o2, o3, o4, o5];
    isNull := l.IsNull();
  }

  /**
   * test_linklist_fetch_multiple: fetching positions 2, 0, 1, 3, 4 of
   * [1, 2, 3, 4] yields 3, 1, 2, 4 and then nothing, and the length stays 4.
   */
  method FetchOutOfOrder() returns (outs: seq<LinkList.Option<int>>, len: nat)
    ensures outs == [LinkList.Some(3), LinkList.Some(1), LinkList.Some(2), LinkList.Some(4), LinkList.None]
    ensures len == 4
  {
    var l := FromSeq([1, 2, 3, 4]);
    var o1 := l.Fetch(2);
    var o2 := l.Fetch(0);
    var o3 := l.Fetch(1);
    var o4 := l.Fetch(3);
    var o5 := l.Fetch(4);
    outs := [o1, o2, o3, o4, o5];
    len := l.length;
  }

  /**
   * test_linklist_contains_*: nothing is found in an empty list; in
   * [1, 2, 3, 4] the values 3, 1, 2, 4 are found and 5 is not.
   */
  method ContainsProbes() returns (onEmpty: bool, found: seq<bool>, len: nat)
    ensures !onEmpty
    ensures found == [true, true, true, true, false]
    ensures len == 4
  {
    var e := new LinkList.LinkedList<int>();
    onEmpty := e.Contains(1);
    var l := FromSeq([1, 2, 3, 4]);
    var f1 := l.Contains(3);
    var f2 := l.Contains(1);
    var f3 := l.Contains(2);
    var f4 := l.Contains(4);
    var f5 := l.Contains(5);
    found := [f1, f2, f3, f4, f5];
    len := l.length;
  }

  /**
   * test_linklist_any_*: an empty list answers false; on [0] `>= 1` fails
   * and `<= 1` holds; on [2, 3, 4] `>= 1` holds and `<= 1` fails.
   */
  method AnyScans() returns (onEmpty: bool, single: seq<bool>, multiple: seq<bool>)
    ensures !onEmpty
    ensures single == [false, true]
    ensures multiple == [true, false]
  {
    var e := new LinkList.LinkedList<int>();
    onEmpty := e.Any(PredGte1);
    var s := FromSeq([0]);
    assert PredLte1(s.Contents[0]) && !PredGte1(s.Contents[0]);
    var s1 := s.Any(PredGte1);
    var s2 := s.Any(PredLte1);
    single := [s1, s2];
    var m := FromSeq([2, 3, 4]);
    assert m.Contents[0] == 2;
    var m1 := m.Any(PredGte1);
    var m2 := m.Any(PredLte1);
    multiple := [m1, m2];
  }

  /**
   * test_linklist_all_*: an empty list answers false even though no
   * element fails; on [0] `>= 1` fails and `<= 1` holds; on [2, 3, 4]
   * `>= 1` holds and `<= 1` fails.
   */
  method AllScans() returns (onEmpty: bool, single: seq<bool>, multiple: seq<bool>)
    ensures !onEmpty
    ensures single == [false, true]
    ensures multiple == [true, false]
  {
    var e := new LinkList.LinkedList<int>();
    onEmpty := e.All(PredGte1);
    var s := FromSeq([0]);
    assert PredLte1(s.Contents[0]) && !PredGte1(s.Contents[0]);
    var s1 := s.All(PredGte1);
    var s2 := s.All(PredLte1);
    single := [s1, s2];
    var m := FromSeq([2, 3, 4]);
    assert !PredLte1(m.Contents[0]);
    var m1 := m.All(PredGte1);
    var m2 := m.All(PredLte1);
    multiple := [m1, m2];
  }

  /**
   * test_linklist_filter_*: filtering an empty list changes nothing;
   * filtering [0, 2, 0, 2] by `>= 1` removes the zeros and leaves [2, 2],
   * which filtering by `<= 1` then empties.
   */
  method FilterScenario() returns (onEmpty: bool, first: bool, len1: nat, kept: seq<LinkList.Option<int>>, second: bool, isNull: bool)
    ensures !onEmpty
    ensures first && len1 == 2 && kept == [LinkList.Some(2), LinkList.Some(2)]
    ensures second && isNull
  {
    var e := new LinkList.LinkedList<int>();
    onEmpty := e.Filter(PredGte1);
    var l := FromSeq([0, 2, 0, 2]);
    first := l.Filter(PredGte1);
    len1 := l.length;
    var k1 := l.Fetch(0);
    var k2 := l.Fetch(1);
    kept := [k1, k2];
    second := l.Filter(PredLte1);
    isNull := l.IsNull();
  }

  /**
   * test_linklist_filter_single: filtering [0] by `<= 1` changes nothing;
   * filtering it by `>= 1` empties it.
   */
  method FilterSingle() returns (first: bool, len: nat, second: bool, isNull: bool)
    ensures !first && len == 1
    ensures second && isNull
  {
    var l := FromSeq([0]);
    first := l.Filter(PredLte1);
    len := l.length;
    second := l.Filter(PredGte1);
    isNull := l.IsNull();
  }

  /**
   * test_linklist_drop_while_*: dropping from an empty list changes nothing;
   * on [0, 0, 2, 2, 0, 0], dropping while `<= 1` leaves [2, 2, 0, 0] and
   * then dropping while `>= 1` leaves [0, 0].
   */
  method DropWhileScenario() returns (onEmpty: bool, first: bool, len1: nat, second: bool, len2: nat, rest: seq<LinkList.Option<int>>)
    ensures !onEmpty
    ensures first && len1 == 4
    ensures second && len2 == 2 && rest == [LinkList.Some(0), LinkList.Some(0)]
  {
    var e := new LinkList.LinkedList<int>();
    onEmpty := e.DropWhile(PredGte1);
    var l := FromSeq([0, 0, 2, 2, 0, 0]);
    first := l.DropWhile(PredLte1);
    len1 := l.length;
    second := l.DropWhile(PredGte1);
    len2 := l.length;
    var r1 := l.Fetch(0);
    var r2 := l.Fetch(1);
    rest := [r1, r2];
  }

  /**
   * test_linklist_take_while_*: taking from an empty list changes nothing;
   * on [1, 0, 2], taking while `<= 1` leaves [1, 0] and then taking while
   * `>= 1` leaves [1].
   */
  method TakeWhileScenario() returns (onEmpty: bool, first: bool, len1: nat, second: bool, len2: nat, rest: LinkList.Option<int>)
    ensures !onEmpty
    ensures first && len1 == 2
    ensures second && len2 == 1 && rest == LinkList.Some(1)
  {
    var e := new LinkList.LinkedList<int>();
    onEmpty := e.TakeWhile(PredGte1);
    var l := FromSeq([1, 0, 2]);
    first := l.TakeWhile(PredLte1);
    len1 := l.length;
    second := l.TakeWhile(PredGte1);
    len2 := l.length;
    rest := l.Fetch(0);
  }

  /**
   * test_linklist_map_multiple: mapping the in-place increment and then
   * the fresh-buffer increment over [1, 2, 3] yields 3, 4, 5.
   */
  method MapScenario() returns (outs: seq<LinkList.Option<int>>, len: nat)
    ensures outs == [LinkList.Some(3), LinkList.Some(4), LinkList.Some(5)]
    ensures len == 3
  {
    var l := FromSeq([1, 2, 3]);
    l.Map(MapFn);
    l.Map(MapFnNewPtr);
    var o1 := l.Fetch(0);
    var o2 := l.Fetch(1);
    var o3 := l.Fetch(2);
    outs := [o1, o2, o3];
    len := l.length;
  }

  /**
   * test_linklist_drop_while_single: on [0], dropping while `>= 1` changes
   * nothing, and dropping while `<= 1` empties the list.
   */
  method DropWhileSingle() returns (first: bool, len1: nat, second: bool, isNull: bool)
    ensures !first && len1 == 1
    ensures second && isNull
  {
    var l := new LinkList.LinkedList<int>();
    l.PushHead(0);
    assert l.Contents == [0];
    first := l.DropWhile(PredGte1);
    len1 := l.length;
    second := l.DropWhile(PredLte1);
    isNull := l.IsNull();
  }

  /**
   * test_linklist_take_while_single: on [0], taking while `<= 1` changes
   * nothing, and taking while `>= 1` empties the list.
   */
  method TakeWhileSingle() returns (first: bool, len1: nat, second: bool, isNull: bool)
    ensures !first && len1 == 1
    ensures second && isNull
  {
    var l := new LinkList.LinkedList<int>();
    l.PushHead(0);
    assert PredLte1(l.Contents[0]) && !PredGte1(l.Contents[0]);
    first := l.TakeWhile(PredLte1);
    len1 := l.length;
    second := l.TakeWhile(PredGte1);
    isNull := l.IsNull();
  }

  /**
   * test_linklist_delete_single: on [1], deleting at 1 fails, deleting at 0
   * succeeds, and deleting at 0 again fails; the list is left with no head,
   * no tail, and null.
   */
  method DeleteSingle() returns (r1: bool, r2: bool, r3: bool, noHead: bool, noTail: bool, isNull: bool)
    ensures !r1 && r2 && !r3
    ensures noHead && noTail && isNull
  {
    var l := new LinkList.LinkedList<int>();
    l.PushHead(1);
    r1 := l.Delete(1);
    r2 := l.Delete(0);
    r3 := l.Delete(0);
    noHead, noTail := l.head == null, l.tail == null;
    isNull := l.IsNull();
  }

  /**
   * test_linklist_remove_single: removing at 0 from [1] yields 1 and leaves
   * no head, no tail, and a null list.
   */
  method RemoveSingle() returns (out: LinkList.Option<int>, noHead: bool, noTail: bool, isNull: bool)
    ensures out == LinkList.Some(1)
    ensures noHead && noTail && isNull
  {
    var l := new LinkList.LinkedList<int>();
    l.PushHead(1);
    out := l.Remove(0);
    noHead, noTail := l.head == null, l.tail == null;
    isNull := l.IsNull();
  }

  /**
   * test_linklist_fetch_single: fetching at 0 from [1] yields 1 and leaves
   * the list as it was: a head, a tail, length 1.
   */
  method FetchSingle() returns (out: LinkList.Option<int>, hasHead: bool, hasTail: bool, len: nat)
    ensures out == LinkList.Some(1)
    ensures hasHead && hasTail && len == 1
  {
    var l := new LinkList.LinkedList<int>();
    l.PushHead(1);
    out := l.Fetch(0);
    hasHead, hasTail := l.head != null, l.tail != null;
    len := l.length;
  }

  /**
   * test_linklist_map_single and test_linklist_fold*_single: mapping both
   * increments over [1] yields [3]; folding [1] from 0 gives -1 to the left
   * and 1 to the right, with either callback style.
   */
  method SingleMapFold() returns (mapped: LinkList.Option<int>, left: seq<int>, right: seq<int>)
    ensures mapped == LinkList.Some(3)
    ensures left == [-1, -1] && right == [1, 1]
  {
    var m := FromSeq([1]);
    m.Map(MapFn);
    m.Map(MapFnNewPtr);
    mapped := m.Fetch(0);
    var f := FromSeq([1]);
    var l1 := f.FoldL(FoldlFn, 0);
    var l2 := f.FoldL(GenericFoldFn, 0);
    var r1 := f.FoldR(FoldrFn, 0);
    var r2 := f.FoldR(GenericFoldFn, 0);
    left, right := [l1, l2], [r1, r2];
  }

  /**
   * test_linklist_fold*_*: over [1, 2, 3] the left fold of subtraction from
   * 0 is -6 and the right fold is 2, with the in-place and fresh-buffer
   * callbacks alike and the same seed used twice; over an empty list both
   * folds return the seed.
   */
  method FoldScenario() returns (empty: seq<int>, left: seq<int>, right: seq<int>)
    ensures empty == [0, 0, 0, 0]
    ensures left == [-6, -6]
    ensures right == [2, 2]
  {
    var init := 0;
    var e := new LinkList.LinkedList<int>();
    var el1 := e.FoldL(FoldlFn, init);
    var el2 := e.FoldL(GenericFoldFn, init);
    var er1 := e.FoldR(FoldrFn, init);
    var er2 := e.FoldR(GenericFoldFn, init);
    empty := [el1, el2, er1, er2];
    var l := FromSeq([1, 2, 3]);
    var l1 := l.FoldL(FoldlFn, init);
    var l2 := l.FoldL(GenericFoldFn, init);
    left := [l1, l2];
    var r1 := l.FoldR(FoldrFn, init);
    var r2 := l.FoldR(GenericFoldFn, init);
    right := [r1, r2];
  }
}
