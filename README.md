# focs linked list and arithmetic helpers, in Dafny

This project models two parts of the focs C library.

The first is the doubly linked list behind the `linklist_*` API. A list is
a chain of nodes. Each node holds one fixed-size element and `prev`/`next`
links. The list record has `head`, `tail` and `length` fields that callers
read directly.

The API has four groups of operations:
- positional: push and pop at either end, and index-based insert, delete,
  remove and fetch;
- queries: `null`, `contains`, `any`, `all`;
- in-place structural combinators: `filter`, `drop_while`, `take_while`;
- value combinators: `map`, `foldl`, `foldr`.

Map and fold callbacks receive a buffer. They hand back either that same
buffer, changed in place, or a freshly allocated one that the list adopts.

The list's implementation file is not part of this model. Its behaviour
comes from the unit tests in `test/list/linked_list.c`. Each test builds a
list and asserts what the operations return and leave behind.

The second part is the arithmetic macros of `include/focs.h`:
- `MIN` and `MAX`, each with a defined tie-break;
- the floored modulo `mod`, built from C's truncating `%`;
- the block-alignment test `aligned`.

Files:

- `focs.dfy`, module `Focs`: `MIN`, `MAX`, C's `%` (`Rem`), `mod` and
  `aligned`, with the lemmas relating them to Dafny's Euclidean `%`.
- `list_spec.dfy`, module `ListSpec`: reference definitions, over plain
  sequences, of what each list operation does to the contents, and the
  lemmas about them (round trips, filter, take/drop, the fold laws). It also
  defines the callback result `Update` (`Mutated` means the same buffer
  came back, `Replaced` means a new one).
- `linked_list.dfy`, module `LinkList`: the `Node` and `LinkedList`
  classes.
  - The chain is made of real nodes with `prev`/`next` links.
  - The ghost sequences `Nodes` and `Contents` abstract it.
  - `Valid()` ties the links, `head`, `tail` and `length` to those
    sequences.
  - Each method walks or relinks the nodes, and its postcondition states
    the new `Contents` through a `ListSpec` function.
- `linked_list_tests.dfy`, module `LinkedListTests`: the test file's
  callbacks and its scenarios. Each scenario method runs the calls a test
  makes, and its postcondition states what the test asserts.

Where the code and its comments disagree, the model follows the code:
- The header comment of `mod` (include/focs.h:105-119) promises a result
  that is "always positive". The code returns a result with the sign of the
  divisor `n`, so it is negative for a negative `n` unless `n` divides `a`.
  `Focs.ModNegativeModulus` states this, with mod(1, -3) = -2 as an example.
- Test comments that disagree with the assertions next to them:
  - test/list/linked_list.c:950 says `[0, 0]` is left. `pred_gte1` is
    `>= 1`, so `[2, 2]` is left, and the following filter by `<= 1`
    empties the list.
  - Lines 950, 1001, 1044, 1093 and 1125 say "> 1" where the predicate
    is `>= 1`.
  - Line 1125 says dropWhile where the call is take_while.
- "After a filter that removed something, `all p` holds" is true only when
  something is left: `all` answers false on an empty list.
  `ListSpec.AllAfterFilter` needs a non-empty result.
  `ListSpec.FilterEmptiesIff` covers the other case.

## Model

| member | source | states |
|---|---|---|
| Focs.Min | include/focs.h:33-47 | MIN returns one of its two arguments and is `<=` both; when they compare equal it returns the first |
| Focs.Max | include/focs.h:49-63 | MAX returns one of its two arguments and is `>=` both; when they compare equal it returns the first |
| Focs.Rem | include/focs.h:105-126 | C's `%` (truncating division): the remainder is smaller than the divisor in magnitude, takes the sign of the dividend, and differs from it by a multiple of the divisor |
| Focs.Mod | include/focs.h:105-126 | mod(a, n) lies in [0, n) for positive n, whatever the sign of a, and in (n, 0] for negative n; n divides a - mod(a, n) |
| Focs.ModIsEuclidean | include/focs.h:105-126 | for positive n, mod agrees with the Euclidean modulo, including for negative a |
| Focs.ModMatchesRem | include/focs.h:105-126 | for a >= 0 and n > 0, mod(a, n) is C's plain a % n |
| Focs.ModIdempotent | include/focs.h:121-126 | mod(mod(a, n), n) == mod(a, n) for every non-zero n |
| Focs.ModNegativeModulus | include/focs.h:113-126 | for negative n the result is never positive, and is negative unless n divides a; mod(1, -3) == -2 |
| Focs.Aligned | include/focs.h:128-136 | aligned(addr, size, offset) holds exactly when size divides addr - offset |
| Focs.AlignedIffSameMod | include/focs.h:128-136 | an address is aligned exactly when mod maps it and the offset to the same residue |
| ListSpec.InsertAt | test/list/linked_list.c:323-374 | inserting at i puts the value at position i, keeps the earlier elements and shifts the later ones up by one |
| ListSpec.RemoveAt | test/list/linked_list.c:516-569 | removing position i keeps the earlier elements and shifts the later ones down by one |
| ListSpec.InsertRemoveRoundTrip | test/list/linked_list.c:323-374 | removing what was just inserted at the same position gives back the original contents |
| ListSpec.RemoveInsertRoundTrip | test/list/linked_list.c:516-569 | re-inserting a removed element at its position gives back the original contents |
| ListSpec.AllNotAny | test/list/linked_list.c:753-889 | on a non-empty list, `all p` holds exactly when `any (not p)` fails |
| ListSpec.AllImpliesAny | test/list/linked_list.c:822-889 | since `all` is false on an empty list, `all p` implies `any p` |
| ListSpec.Filter | test/list/linked_list.c:891-970 | the filtered contents are no longer than the input, and every kept element satisfies the predicate |
| ListSpec.FilterShrinks | test/list/linked_list.c:891-970 | filter removes something exactly when some element fails the predicate |
| ListSpec.FilterCounts | test/list/linked_list.c:891-970 | filter keeps every occurrence of each element that satisfies the predicate and no occurrence of any other |
| ListSpec.FilterUnchanged | test/list/linked_list.c:910-935 | filter leaves the contents unchanged exactly when every element satisfies the predicate |
| ListSpec.FilterIdempotent | test/list/linked_list.c:891-970 | filtering twice by the same predicate is filtering once |
| ListSpec.AllAfterFilter | test/list/linked_list.c:937-970 | after a filter that leaves something, `all p` holds and `any (not p)` fails |
| ListSpec.FilterEmptiesIff | test/list/linked_list.c:937-970 | filter empties the list exactly when no element satisfies the predicate, and the emptied list answers false to `all p` |
| ListSpec.DropWhile | test/list/linked_list.c:972-1054 | drop_while leaves no more elements than it was given, and what it leaves is empty or starts with an element failing the predicate |
| ListSpec.TakeWhile | test/list/linked_list.c:1056-1135 | take_while leaves no more elements than it was given, and each one it leaves satisfies the predicate |
| ListSpec.DropWhileSuffix | test/list/linked_list.c:972-1054 | what drop_while leaves is a suffix of the contents |
| ListSpec.TakeWhilePrefix | test/list/linked_list.c:1056-1135 | what take_while leaves is a prefix of the contents |
| ListSpec.TakeDropSplit | test/list/linked_list.c:972-1135 | take_while and drop_while split the contents at the same point: their results concatenate to the original |
| ListSpec.SplitAtFirstFailure | test/list/linked_list.c:1056-1135 | the split point is the first element failing the predicate: take_while keeps exactly the elements before it and drop_while keeps it and the rest |
| ListSpec.DropWhileChanges | test/list/linked_list.c:972-1054 | drop_while removes something exactly when the list is non-empty and its first element satisfies the predicate |
| ListSpec.TakeWhileChanges | test/list/linked_list.c:1056-1135 | take_while removes something exactly when some element fails the predicate |
| ListSpec.Map | test/list/linked_list.c:1154-1232 | map, defined head to tail, keeps the length, and position i holds what the callback left for the old element i |
| ListSpec.MapStylesAgree | test/list/linked_list.c:1137-1152 | an in-place callback and the same callback returning a fresh buffer map the contents to the same result |
| ListSpec.MapCompose | test/list/linked_list.c:1196-1232 | mapping one callback and then another is mapping their composition once |
| ListSpec.FoldLSnoc | test/list/linked_list.c:1377-1467 | a left fold over one more element is one more call of the callback with the accumulator first |
| ListSpec.FoldRIsFlippedFoldL | test/list/linked_list.c:1287-1375 | a right fold is a left fold over the reversed contents with the callback's arguments swapped |
| LinkList.LinkedList.constructor | test/list/linked_list.c:24-37 | a new list is valid and empty: no head, no tail, length 0 |
| LinkList.LinkedList.IsNull | test/list/linked_list.c:39-59 | `null` holds exactly when the list has no elements, exactly when the length is 0, and exactly when there is no tail |
| LinkList.LinkedList.PushHead | test/list/linked_list.c:61-105 | the pushed element becomes the first and the rest follow in their old order |
| LinkList.LinkedList.PushTail | test/list/linked_list.c:107-151 | the pushed element becomes the last and the rest keep their order |
| LinkList.LinkedList.PopHead | test/list/linked_list.c:153-229 | yields the first element and removes it; on an empty list yields nothing and changes nothing |
| LinkList.LinkedList.PopTail | test/list/linked_list.c:231-302 | yields the last element and removes it; on an empty list yields nothing and changes nothing |
| LinkList.LinkedList.Insert | test/list/linked_list.c:304-374 | succeeds exactly when the index is at most the length and then places the element at that index; otherwise the list is unchanged |
| LinkList.LinkedList.Delete | test/list/linked_list.c:376-469 | succeeds exactly when the index is in range and then removes that element; otherwise the list is unchanged |
| LinkList.LinkedList.Remove | test/list/linked_list.c:471-569 | for an index in range, yields that element and removes it; otherwise yields nothing and changes nothing |
| LinkList.LinkedList.Fetch | test/list/linked_list.c:571-660 | yields the element at an index in range and nothing past the end, without changing the list |
| LinkList.LinkedList.Contains | test/list/linked_list.c:662-741 | true exactly when some element equals the probe |
| LinkList.LinkedList.Any | test/list/linked_list.c:753-820 | true exactly when some element satisfies the predicate (so false on an empty list) |
| LinkList.LinkedList.All | test/list/linked_list.c:822-889 | true exactly when the list is non-empty and every element satisfies the predicate |
| LinkList.LinkedList.Filter | test/list/linked_list.c:891-970 | the contents become ListSpec.Filter of the old contents; the result is true exactly when some old element failed the predicate |
| LinkList.LinkedList.DropWhile | test/list/linked_list.c:972-1054 | the contents become ListSpec.DropWhile of the old contents; the result is true exactly when the old first element satisfied the predicate |
| LinkList.LinkedList.TakeWhile | test/list/linked_list.c:1056-1135 | the contents become ListSpec.TakeWhile of the old contents; the result is true exactly when some old element failed the predicate |
| LinkList.LinkedList.Map | test/list/linked_list.c:1154-1232 | the contents become ListSpec.Map of the old contents, held in the same nodes |
| LinkList.LinkedList.FoldL | test/list/linked_list.c:1377-1467 | the result is the left fold, from the seed, over the contents from head to tail |
| LinkList.LinkedList.FoldR | test/list/linked_list.c:1287-1375 | the result is the right fold, from the seed, over the contents from tail to head |
| LinkedListTests.AllocAndNull | test/list/linked_list.c:24-59 | a new list has length 0 and is null; after one push it is not null |
| LinkedListTests.PushHeadOrder | test/list/linked_list.c:78-105 | after pushing 1, 2, 3 at the head, the length is 3 and walking `next` meets 3, 2, 1 and then the end |
| LinkedListTests.PushTailOrder | test/list/linked_list.c:124-151 | after pushing 1, 2, 3 at the tail, the length is 3 and walking `next` meets 1, 2, 3 and then the end |
| LinkedListTests.PopHeadSequence | test/list/linked_list.c:153-229 | popping an empty list yields nothing; popping [3, 2, 1] yields 3, 2, 1 and leaves it null |
| LinkedListTests.PopTailSequence | test/list/linked_list.c:231-302 | popping an empty list yields nothing; popping [1, 2, 3] from the tail yields 3, 2, 1 and leaves it null |
| LinkedListTests.InsertOutOfOrder | test/list/linked_list.c:323-374 | inserting 1@0, 3@1, 2@1, 4@0 succeeds each time, gives length 4 and pops as 4, 1, 2, 3; one added step, which the test does not make, shows an index past the end refused, as the insert contract requires |
| LinkedListTests.DeleteOutOfOrder | test/list/linked_list.c:376-469 | deletes on an empty list fail; deleting 2, 0, 1, 0 from [1, 2, 3, 4] succeeds, a fifth delete fails, and the list is null |
| LinkedListTests.RemoveOutOfOrder | test/list/linked_list.c:516-569 | removing 2, 0, 1, 0, 0 from [1, 2, 3, 4] yields 3, 1, 4, 2 and then nothing, and the list is null |
| LinkedListTests.FetchOutOfOrder | test/list/linked_list.c:615-660 | fetching 2, 0, 1, 3, 4 from [1, 2, 3, 4] yields 3, 1, 2, 4 and then nothing, and the length stays 4 |
| LinkedListTests.ContainsProbes | test/list/linked_list.c:662-741 | nothing is found in an empty list; 3, 1, 2, 4 are found in [1, 2, 3, 4] and 5 is not |
| LinkedListTests.AnyScans | test/list/linked_list.c:753-820 | `any` is false on an empty list; on [0] it is false for `>= 1` and true for `<= 1`; on [2, 3, 4] the reverse |
| LinkedListTests.AllScans | test/list/linked_list.c:822-889 | `all` is false on an empty list; on [0] it is false for `>= 1` and true for `<= 1`; on [2, 3, 4] the reverse |
| LinkedListTests.FilterScenario | test/list/linked_list.c:891-970 | filtering an empty list reports no change; filtering [0, 2, 0, 2] by `>= 1` reports a change and leaves [2, 2], which filtering by `<= 1` empties |
| LinkedListTests.FilterSingle | test/list/linked_list.c:910-935 | filtering [0] by `<= 1` reports no change; filtering it by `>= 1` empties it |
| LinkedListTests.DropWhileScenario | test/list/linked_list.c:972-1054 | drop_while on an empty list reports no change; on [0, 0, 2, 2, 0, 0] dropping `<= 1` leaves 4 elements and then dropping `>= 1` leaves [0, 0] |
| LinkedListTests.DropWhileSingle | test/list/linked_list.c:991-1019 | on [0], dropping while `>= 1` changes nothing and dropping while `<= 1` empties the list |
| LinkedListTests.TakeWhileScenario | test/list/linked_list.c:1056-1135 | take_while on an empty list reports no change; on [1, 0, 2] taking `<= 1` leaves 2 elements and then taking `>= 1` leaves [1] |
| LinkedListTests.TakeWhileSingle | test/list/linked_list.c:1075-1103 | on [0], taking while `<= 1` changes nothing and taking while `>= 1` empties the list |
| LinkedListTests.DeleteSingle | test/list/linked_list.c:398-423 | on [1], delete at 1 fails, delete at 0 succeeds and a second delete at 0 fails; the list is left with no head, no tail, and null |
| LinkedListTests.RemoveSingle | test/list/linked_list.c:493-514 | removing at 0 from [1] yields 1 and leaves no head, no tail, and a null list |
| LinkedListTests.FetchSingle | test/list/linked_list.c:593-613 | fetching at 0 from [1] yields 1 and leaves a head, a tail and length 1 |
| LinkedListTests.MapScenario | test/list/linked_list.c:1196-1232 | mapping the in-place increment and then the fresh-buffer increment over [1, 2, 3] gives 3, 4, 5 and keeps the length |
| LinkedListTests.SingleMapFold | test/list/linked_list.c:1171-1194 | mapping both increments over [1] gives 3; folding [1] from 0 gives -1 to the left and 1 to the right with both callback styles |
| LinkedListTests.FoldScenario | test/list/linked_list.c:1287-1467 | on an empty list both folds return the seed; over [1, 2, 3] the left fold is -6 and the right fold is 2 with both callback styles and the same seed reused |
| LinkedListTests.U8 | test/list/linked_list.c:1137-1152 | conversion to `uint8_t` lands in [0, 256), wraps around (differs from its argument by a multiple of 256), and leaves values already in range unchanged |
| LinkedListTests.I8 | test/list/linked_list.c:1244-1285 | conversion to `int8_t` lands in [-128, 128), wraps around (differs from its argument by a multiple of 256), and leaves values already in range unchanged |
| LinkedListTests.PredGte1 | test/list/linked_list.c:743-746 | pred_gte1 on a `uint8_t` element holds exactly when the element is not 0 |
| LinkedListTests.PredLte1 | test/list/linked_list.c:748-751 | pred_lte1 on a `uint8_t` element holds exactly for 0 and 1; every element satisfies pred_gte1 or pred_lte1, and only 1 satisfies both |
| LinkedListTests.MapFn | test/list/linked_list.c:1137-1141 | map_fn hands back the buffer it was given, now holding the element plus one wrapped to `uint8_t` (255 becomes 0) |
| LinkedListTests.MapFnNewPtr | test/list/linked_list.c:1143-1152 | map_fn_newptr hands back a fresh buffer holding the same value map_fn leaves in place |
| LinkedListTests.FoldrFn | test/list/linked_list.c:1244-1248 | foldr_fn hands back the accumulator it was given, now holding element minus accumulator wrapped to `int8_t` |
| LinkedListTests.FoldlFn | test/list/linked_list.c:1260-1264 | foldl_fn hands back the accumulator it was given, now holding accumulator minus element wrapped to `int8_t` |
| LinkedListTests.GenericFoldFn | test/list/linked_list.c:1277-1285 | generic_fold_fn hands back a fresh buffer holding first minus second argument, the value foldl_fn and foldr_fn store in place |

## Left out

- Memory management is not modelled: `malloc`, `free`, buffer ownership,
  leaks and `linklist_free`. The model's elements are values. A popped,
  removed or fetched element is that value, not a pointer the caller must
  free.
- The buffer identity that the map and fold protocol inspects is not
  modelled. A callback result carries a tag (`Mutated` for the same
  buffer, `Replaced` for a new one) and the value it holds. The list adopts
  the value either way; which buffer is freed is not modelled.
- Allocation failure paths are not modelled. They cannot be observed
  through the test file's assertions.
- `element_size` is not modelled, and neither are byte-wise copies and
  `memcmp`. Elements have a generic type with equality. An element size
  of 0 (used by some tests with empty lists) therefore plays no role.
- The list's implementation file, `list/linked_list.h` and its source,
  is not part of this model. The walks and relinks in `LinkList` are one
  implementation that meets the assertions: for example, the index-based
  operations walk from the head.
- `LinkList.LinkedList.FoldL` and `LinkList.LinkedList.FoldR` hand the
  result back as a value. The C functions return a freshly allocated
  accumulator, seeded with a copy of `init`, that the caller frees.
- `Focs.Aligned`: the arguments are unbounded signed integers, so the
  unsigned wrap-around of `addr - offset` is not modelled. For a `size_t`
  address below the offset the C macro tests the wrapped difference: for
  addr 4, offset 8, size 3 it tests 2^64 - 4, which 3 divides, and answers
  true, while the model tests -4 and answers false. The model agrees with
  the macro whenever `addr >= offset` or the operands are signed.
- `Focs.Mod`: the fixed-width overflow of `(a % n) + n` is not modelled,
  because integers here are unbounded. The model is exact whenever that
  sum fits the argument type.
- `Focs.Min` and `Focs.Max` take the comparison as a parameter (any total
  `<=`), because C's `typeof` makes the macros generic.
- The errno and control-flow macros `return_with_errno`,
  `goto_with_errno` and `free_null` (include/focs.h:65-103) are not
  modelled: they are errno and memory side effects. Neither are the
  attribute macros `__nonulls`, `__pure` and `__unused` (29-31), which are
  compiler hints.
- The Check harness (suite and test-case registration and `main`,
  test/list/linked_list.c:1469-1601) is test plumbing and is not modelled.
- The test callbacks' `uint8_t`/`int8_t` arithmetic is modelled with
  explicit wrap-around (`LinkedListTests.U8`, `LinkedListTests.I8`). The
  conversion of an out-of-range value to `int8_t` is
  implementation-defined in C; the model uses two's complement wrap-around.
  The test values never reach it.
- The `malloc(sizeof(n))` size of the pointer in `generic_fold_fn`
  (test/list/linked_list.c:1281) is not modelled, because buffers are
  values here.
