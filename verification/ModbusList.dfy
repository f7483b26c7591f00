/** The intrusive circular doubly linked list of sdk/acq_modbus/modbus_list.h.

    A list is a head node and the element nodes `s` reached from it.  The ghost
    argument `s` of each operation is that sequence; `Circular(head, s)` is the
    well-formedness the C code relies on.  Every `modifies` clause names
    exactly the nodes the C function writes, so a list that shares none of them is
    left as it was.
 */
module ModbusList {
  import opened Basics

  class ListHead {
    var next: ListHead?
    var prev: ListHead?
    /** The structure this node is embedded in, what `list_entry` computes; null for a bare list head. */
    const owner: object?

    /** INIT_LIST_HEAD on a new node. */
    constructor (owner: object?)
      ensures this.owner == owner
      ensures Circular(this, [])
    {
      this.owner := owner;
      next, prev := this, this;
    }
  }

  /** The node after position `i` on the ring `r`. */
  ghost function After(r: seq<ListHead>, i: nat): ListHead
    requires i < |r|
  {
    if i + 1 < |r| then r[i + 1] else r[0]
  }

  /** Going round `r` along `next` visits its nodes in order, each once; `prev` is the inverse. */
  ghost predicate Ring(r: seq<ListHead>)
    reads r
  {
    && Distinct(r)
    && forall i {:trigger After(r, i)} :: 0 <= i < |r| ==> r[i].next == After(r, i) && After(r, i).prev == r[i]
  }

  /** From `head` the nodes `s` follow in order and the last one leads back to `head`. */
  ghost predicate Circular(head: ListHead, s: seq<ListHead>)
    reads head, s
  {
    Ring([head] + s)
  }

  /** The pointers determine the sequence: two readings of one heap agree. */
  lemma {:induction false} CircularUnique(head: ListHead, s: seq<ListHead>, t: seq<ListHead>)
    requires Circular(head, s) && Circular(head, t) && |s| <= |t|
    ensures s == t
  {
    var a, b := [head] + s, [head] + t;
    RingPrefix(a, b, |s|);
    assert b[|s|].next == After(b, |s|) && a[|s|].next == After(a, |s|);
    assert forall i :: 0 <= i < |s| ==> s[i] == a[i + 1] == b[i + 1] == t[i];
  }

  lemma {:induction false} RingPrefix(a: seq<ListHead>, b: seq<ListHead>, n: nat)
    requires Ring(a) && Ring(b) && n < |a| && n < |b| && a[0] == b[0]
    ensures forall i :: 0 <= i <= n ==> a[i] == b[i]
  {
    if n > 0 {
      RingPrefix(a, b, n - 1);
      assert After(a, n - 1) == a[n] && After(b, n - 1) == b[n];
    }
  }

  /** The node before position `i` on the ring `r`. */
  ghost function Before(r: seq<ListHead>, i: nat): ListHead
    requires i < |r|
  {
    if i == 0 then r[|r| - 1] else r[i - 1]
  }

  /** The neighbours of the node at position `i` of a ring are its neighbours in the sequence. */
  lemma Neighbours(r: seq<ListHead>, i: nat)
    requires Ring(r) && i < |r|
    ensures r[i].next == After(r, i) && After(r, i) in r
    ensures r[i].prev == Before(r, i) && Before(r, i) in r
  {
    assert After(r, if i == 0 then |r| - 1 else i - 1) == r[i];
  }

  /** The element at `k`, or the head after the last one. */
  ghost function ElementOrHead(head: ListHead, s: seq<ListHead>, k: nat): ListHead {
    if k < |s| then s[k] else head
  }

  /** Following `next` from the element at `k`. */
  lemma NextElement(head: ListHead, s: seq<ListHead>, k: nat)
    requires Circular(head, s) && k <= |s|
    ensures var e := ElementOrHead(head, s, k);
      e.next == if k < |s| then ElementOrHead(head, s, k + 1) else ElementOrHead(head, s, 0)
  {
    Neighbours([head] + s, if k < |s| then k + 1 else 0);
  }

  lemma HeadApart(head: ListHead, s: seq<ListHead>)
    requires Distinct([head] + s)
    ensures head !in s && forall i :: 0 <= i < |s| ==> s[i] != head
  {
    var r := [head] + s;
    assert forall i :: 0 <= i < |s| ==> s[i] == r[i + 1] && r[0] != r[i + 1];
  }

  lemma ElementsApart(head: ListHead, s: seq<ListHead>)
    requires Circular(head, s)
    ensures forall i :: 0 <= i < |s| ==> s[i] != head
  {
    HeadApart(head, s);
  }

  /** An element occurs once, so a list without it does not contain it. */
  lemma ElementsDiffer(head: ListHead, s: seq<ListHead>, k: nat)
    requires Distinct([head] + s) && k < |s|
    ensures s[k] != head && s[k] !in Without(s, k)
    ensures forall j :: 0 <= j < |s| && j != k ==> s[j] != s[k]
    ensures forall x :: x in s && x != s[k] ==> x in Without(s, k)
  {
    var r := [head] + s;
    assert r[0] == head != r[k + 1];
    assert r[k + 1] == s[k] && forall j :: 0 <= j < |s| ==> s[j] == r[j + 1];
  }

  // ----- the internal primitives

  method LinkBetween(entry: ListHead, prev: ListHead, next: ListHead, ghost r: seq<ListHead>, ghost k: nat)
    requires Ring(r) && k < |r| && r[k] == prev && After(r, k) == next && entry !in r
    modifies entry, prev, next
    ensures Ring(r[..k + 1] + [entry] + r[k + 1..])
  {
    next.prev := entry;
    entry.next := next;
    entry.prev := prev;
    prev.next := entry;
    ghost var q := r[..k + 1] + [entry] + r[k + 1..];
    forall i | 0 <= i < |q| ensures q[i].next == After(q, i) && After(q, i).prev == q[i] {
      if i < k {
        assert q[i] == r[i] && After(q, i) == After(r, i);
      } else if i > k + 1 {
        assert q[i] == r[i - 1] && After(q, i) == After(r, i - 1);
      }
    }
  }

  method UnlinkBetween(prev: ListHead, next: ListHead, ghost r: seq<ListHead>, ghost k: nat)
    requires Ring(r) && 1 <= k < |r| && r[k - 1] == prev && After(r, k) == next
    modifies prev, next
    ensures Ring(Without(r, k))
  {
    next.prev := prev;
    prev.next := next;
    ghost var q := Without(r, k);
    forall i | 0 <= i < |q| ensures q[i].next == After(q, i) && After(q, i).prev == q[i] {
      var j := if i < k then i else i + 1;
      assert q[i] == r[j];
      assert i != k - 1 ==> After(q, i) == After(r, j);
    }
  }

  // ----- the public operations

  /** `list_add`: push in front. */
  method ListAdd(entry: ListHead, head: ListHead, ghost s: seq<ListHead>)
    requires Circular(head, s) && entry !in [head] + s
    modifies entry, head, head.next
    ensures Circular(head, [entry] + s)
  {
    Neighbours([head] + s, 0);
    LinkBetween(entry, head, head.next, [head] + s, 0);
    assert ([head] + s)[..1] + [entry] + ([head] + s)[1..] == [head] + ([entry] + s);
  }

  /** `list_add_tail`: append. */
  method ListAddTail(entry: ListHead, head: ListHead, ghost s: seq<ListHead>)
    requires Circular(head, s) && entry !in [head] + s
    modifies entry, head, head.prev
    ensures Circular(head, s + [entry])
  {
    ghost var r := [head] + s;
    Neighbours(r, 0);
    LinkBetween(entry, head.prev, head, r, |s|);
    assert r[..|s| + 1] + [entry] + r[|s| + 1..] == [head] + (s + [entry]);
  }

  /** `list_del`: `entry`, the element at `k`, leaves; its own pointers become null. */
  method ListDel(entry: ListHead, ghost head: ListHead, ghost s: seq<ListHead>, ghost k: nat)
    requires Circular(head, s) && k < |s| && s[k] == entry
    modifies entry, entry.prev, entry.next
    ensures Circular(head, Without(s, k))
    ensures entry.next == null && entry.prev == null
  {
    Detach(entry, head, s, k);
    entry.next := null;
    entry.prev := null;
  }

  /** The `__list_del(entry->prev, entry->next)` shared by the deleting and moving operations. */
  method Detach(entry: ListHead, ghost head: ListHead, ghost s: seq<ListHead>, ghost k: nat)
    requires Circular(head, s) && k < |s| && s[k] == entry
    modifies entry.prev, entry.next
    ensures Circular(head, Without(s, k)) && entry !in [head] + Without(s, k)
  {
    ghost var r := [head] + s;
    Neighbours(r, k + 1);
    UnlinkBetween(entry.prev, entry.next, r, k + 1);
    assert Without(r, k + 1) == [head] + Without(s, k);
  }

  /** `list_del_init`: `entry` leaves and becomes an empty list of its own. */
  method ListDelInit(entry: ListHead, ghost head: ListHead, ghost s: seq<ListHead>, ghost k: nat)
    requires Circular(head, s) && k < |s| && s[k] == entry
    modifies entry, entry.prev, entry.next
    ensures Circular(head, Without(s, k)) && Circular(entry, [])
  {
    Detach(entry, head, s, k);
    entry.next, entry.prev := entry, entry;
  }

  /** Two lists: the same one, or without a common node. */
  ghost predicate SameOrApart(h1: ListHead, s1: seq<ListHead>, h2: ListHead, s2: seq<ListHead>) {
    || (h1 == h2 && s1 == s2)
    || (forall x :: x in [h1] + s1 ==> x !in [h2] + s2)
  }

  /** What a move writes in the list it takes from lies outside an unrelated target list. */
  lemma TouchedByMove(entry: ListHead, from: ListHead, s: seq<ListHead>, k: nat, head: ListHead, t: seq<ListHead>)
    requires Circular(from, s) && k < |s| && s[k] == entry
    requires Circular(head, t) && SameOrApart(from, s, head, t)
    ensures entry.prev == ([from] + s)[k] && entry.next == After([from] + s, k + 1)
    ensures from == head ==> s == t
    ensures from != head ==> entry !in [head] + t && entry.prev !in [head] + t && entry.next !in [head] + t
    ensures head.next == After([head] + t, 0) && head.prev == ([head] + t)[|t|]
  {
    Neighbours([from] + s, k + 1);
    Neighbours([head] + t, 0);
    assert from in [from] + s && head in [head] + t;
  }

  /** `list_move`: from wherever it is to the front of the list of `head`, the same list included. */
  method ListMove(entry: ListHead, ghost from: ListHead, ghost s: seq<ListHead>, ghost k: nat,
                  head: ListHead, ghost t: seq<ListHead>)
    requires Circular(from, s) && k < |s| && s[k] == entry
    requires Circular(head, t) && SameOrApart(from, s, head, t)
    modifies entry, entry.prev, entry.next, head, head.next
    ensures from == head ==> Circular(head, [entry] + Without(s, k))
    ensures from != head ==> Circular(from, Without(s, k)) && Circular(head, [entry] + t)
  {
    TouchedByMove(entry, from, s, k, head, t);
    Detach(entry, from, s, k);
    ghost var rest := if from == head then Without(s, k) else t;
    Neighbours([head] + rest, 0);
    assert After([head] + rest, 0)
           == if from == head && k == 0 then After([from] + s, 1) else After([head] + t, 0);
    ListAdd(entry, head, rest);
  }

  /** `list_move_tail`. */
  method ListMoveTail(entry: ListHead, ghost from: ListHead, ghost s: seq<ListHead>, ghost k: nat,
                      head: ListHead, ghost t: seq<ListHead>)
    requires Circular(from, s) && k < |s| && s[k] == entry
    requires Circular(head, t) && SameOrApart(from, s, head, t)
    modifies entry, entry.prev, entry.next, head, head.prev
    ensures from == head ==> Circular(head, Without(s, k) + [entry])
    ensures from != head ==> Circular(from, Without(s, k)) && Circular(head, t + [entry])
  {
    TouchedByMove(entry, from, s, k, head, t);
    Detach(entry, from, s, k);
    ghost var rest := if from == head then Without(s, k) else t;
    Neighbours([head] + rest, 0);
    assert ([head] + rest)[|rest|]
           == if from == head && k == |s| - 1 then ([from] + s)[k] else ([head] + t)[|t|];
    ListAddTail(entry, head, rest);
  }

  /** `list_empty`. */
  method ListEmpty(head: ListHead, ghost s: seq<ListHead>) returns (empty: bool)
    requires Circular(head, s)
    ensures empty <==> s == []
  {
    empty := head.next == head;
    Neighbours([head] + s, 0);
  }

  lemma SpliceDistinct(list: ListHead, s: seq<ListHead>, head: ListHead, t: seq<ListHead>)
    requires Distinct([list] + s) && Distinct([head] + t)
    requires forall x :: x in [list] + s ==> x !in [head] + t
    ensures Distinct([head] + (s + t)) && list !in [head] + (s + t)
  {
    HeadApart(list, s);
    HeadApart(head, t);
    assert list in [list] + s;
    assert forall i :: 0 <= i < |s| ==> s[i] == ([list] + s)[i + 1];
    assert forall i :: 0 <= i < |t| ==> t[i] == ([head] + t)[i + 1];
    var q := [head] + (s + t);
    forall i, j | 0 <= i < j < |q| ensures q[i] != q[j] {
      if 1 <= i <= |s| {
        assert q[i] in [list] + s && (j > |s| ==> q[j] in [head] + t);
      } else if i == 0 && j <= |s| {
        assert q[j] in [list] + s && q[0] in [head] + t;
      }
    }
  }

  /** `__list_splice`: all of `s`, in order, goes between `head` and its first element. */
  method SpliceIn(list: ListHead, ghost s: seq<ListHead>, head: ListHead, ghost t: seq<ListHead>)
    requires Circular(list, s) && s != [] && Circular(head, t)
    requires forall x :: x in [list] + s ==> x !in [head] + t
    modifies list.next, list.prev, head, head.next
    ensures Circular(head, s + t)
    ensures list.next == old(list.next) && list.prev == old(list.prev)
  {
    var first := list.next;
    var last := list.prev;
    var at := head.next;
    ghost var a, b, q := [list] + s, [head] + t, [head] + (s + t);
    Neighbours(a, 0);
    Neighbours(b, 0);
    assert first == s[0] && last == s[|s| - 1];
    SpliceDistinct(list, s, head, t);

    first.prev := head;
    head.next := first;
    last.next := at;
    at.prev := last;

    forall i | 0 <= i < |q| ensures q[i].next == After(q, i) && After(q, i).prev == q[i] {
      if 1 <= i < |s| {
        assert q[i] == a[i] && After(q, i) == After(a, i);
      } else if i > |s| {
        assert q[i] == b[i - |s|] && After(q, i) == After(b, i - |s|);
      }
    }
  }

  /** `list_splice`: a nonempty `list` hands its elements over; its head keeps the stale pointers. */
  method ListSplice(list: ListHead, ghost s: seq<ListHead>, head: ListHead, ghost t: seq<ListHead>)
    requires Circular(list, s) && Circular(head, t)
    requires forall x :: x in [list] + s ==> x !in [head] + t
    modifies list.next, list.prev, head, head.next
    ensures Circular(head, s + t)
    ensures list.next == old(list.next) && list.prev == old(list.prev)
  {
    var empty := ListEmpty(list, s);
    if !empty {
      SpliceIn(list, s, head, t);
    } else {
      assert s + t == t;
    }
  }

  /** `list_splice_init`: as above, and `list` ends as an empty list. */
  method ListSpliceInit(list: ListHead, ghost s: seq<ListHead>, head: ListHead, ghost t: seq<ListHead>)
    requires Circular(list, s) && Circular(head, t)
    requires forall x :: x in [list] + s ==> x !in [head] + t
    modifies list, list.next, list.prev, head, head.next
    ensures Circular(head, s + t) && Circular(list, [])
  {
    var empty := ListEmpty(list, s);
    if !empty {
      SpliceIn(list, s, head, t);
      SpliceDistinct(list, s, head, t);
      list.next, list.prev := list, list;
    } else {
      assert s + t == t;
    }
  }

  /** The elements of `s` outside `gone`, in order. */
  ghost function Kept(s: seq<ListHead>, gone: set<ListHead>): seq<ListHead> {
    if s == [] then []
    else Kept(s[..|s| - 1], gone) + if s[|s| - 1] in gone then [] else [s[|s| - 1]]
  }

  /** The walk stands before `now[k..]`, the part of `s` not yet visited; `now[..k]` is what was kept. */
  ghost predicate Walk(s: seq<ListHead>, visited: seq<ListHead>, gone: set<ListHead>, now: seq<ListHead>, k: int) {
    0 <= k <= |now| && visited + now[k..] == s && now[..k] == Kept(visited, gone)
  }

  lemma WalkStart(s: seq<ListHead>, gone: set<ListHead>)
    ensures Walk(s, [], gone, s, 0)
  {
  }

  lemma WalkEnd(s: seq<ListHead>, visited: seq<ListHead>, gone: set<ListHead>, now: seq<ListHead>)
    requires Walk(s, visited, gone, now, |now|)
    ensures visited == s && now == Kept(s, gone)
  {
    assert now[..|now|] == now;
  }

  lemma WalkStep(s: seq<ListHead>, visited: seq<ListHead>, gone: set<ListHead>, now: seq<ListHead>, k: int)
    requires Walk(s, visited, gone, now, k) && k < |now|
    ensures var x := now[k];
      && x in s && (k + 1 < |now| ==> now[k + 1] in s)
      && if x in gone then Walk(s, visited + [x], gone, Without(now, k), k)
         else Walk(s, visited + [x], gone, now, k + 1)
  {
  }

  /** Initialisation of the safe loop. */
  method SafeStart(head: ListHead, ghost s: seq<ListHead>) returns (pos: ListHead, n: ListHead)
    requires Circular(head, s)
    ensures pos == (if s == [] then head else s[0]) && n == pos.next
  {
    Neighbours([head] + s, 0);
    pos := head.next;
    Neighbours([head] + s, if s == [] then 0 else 1);
    n := pos.next;
  }

  /** Body and increment of the safe loop at the element `k` of the current list `now`:
      `n` was saved before the body ran, so it is valid although `pos` may have been deleted. */
  method VisitAndAdvance(pos: ListHead, n: ListHead, head: ListHead, gone: set<ListHead>,
                         ghost now: seq<ListHead>, ghost k: nat)
      returns (n': ListHead, ghost now': seq<ListHead>)
    requires Circular(head, now) && k < |now| && now[k] == pos && pos.next == n
    modifies pos, pos.prev, pos.next
    ensures now' == if pos in gone then Without(now, k) else now
    ensures Circular(head, now')
    ensures n == (if k + 1 < |now| then now[k + 1] else head) && n'== n.next
  {
    ghost var r := [head] + now;
    Neighbours(r, k + 1);
    now' := now;
    if pos in gone {
      ListDel(pos, head, now, k);
      now' := Without(now, k);
    }
    ghost var at := if k + 1 < |now| then (if pos in gone then k + 1 else k + 2) else 0;
    assert ([head] + now')[at] == n;
    Neighbours([head] + now', at);
    n' := n.next;
  }

  /** What is written when the element `k` is visited was there at the start. */
  lemma StaysInside(head: ListHead, s: seq<ListHead>, visited: seq<ListHead>, gone: set<ListHead>,
                    now: seq<ListHead>, k: nat)
    requires Circular(head, now) && k < |now| && Walk(s, visited, gone, now, k) && (k > 0 ==> now[k - 1] in s)
    ensures now[k] in s
    ensures (now[k].prev == head || now[k].prev in s) && (now[k].next == head || now[k].next in s)
  {
    hide Ring;
    WalkStep(s, visited, gone, now, k);
    Neighbours([head] + now, k + 1);
  }

  /** One turn of the safe loop. */
  method WalkOn(pos: ListHead, n: ListHead, head: ListHead, gone: set<ListHead>, visited: seq<ListHead>,
                ghost s: seq<ListHead>, ghost now: seq<ListHead>, ghost k: nat)
      returns (visited': seq<ListHead>, n': ListHead, ghost now': seq<ListHead>, ghost k': nat)
    requires Circular(head, now) && k < |now| && now[k] == pos && pos.next == n
    requires Walk(s, visited, gone, now, k) && (k > 0 ==> now[k - 1] in s)
    modifies pos, pos.prev, pos.next
    ensures visited' == visited + [pos] && Circular(head, now') && k' <= |now'| && |now'| - k' < |now| - k
    ensures Walk(s, visited', gone, now', k') && (k' > 0 ==> now'[k' - 1] in s)
    ensures n == (if k' < |now'| then now'[k'] else head) && n' == n.next
  {
    hide Ring, Walk;
    WalkStep(s, visited, gone, now, k);
    visited' := visited + [pos];
    n', now' := VisitAndAdvance(pos, n, head, gone, now, k);
    k' := if pos in gone then k else k + 1;
  }

  /** `list_for_each_safe` with a body that deletes some of the elements it visits: the successor is
      saved before the body runs, so every element is visited once, in order, deleted or not. */
  method ForEachSafe(head: ListHead, gone: set<ListHead>, ghost s: seq<ListHead>) returns (visited: seq<ListHead>)
    requires Circular(head, s)
    modifies head, s
    ensures visited == s
    ensures Circular(head, Kept(s, gone))
  {
    hide Ring, Kept, Walk;
    WalkStart(s, gone);
    visited := [];
    var pos, n := SafeStart(head, s);
    ghost var now, k := s, 0;
    while pos != head
      invariant 0 <= k <= |now| && Walk(s, visited, gone, now, k) && Circular(head, now)
      invariant k > 0 ==> now[k - 1] in s
      invariant pos == (if k < |now| then now[k] else head) && n == pos.next
      decreases |now| - k
    {
      StaysInside(head, s, visited, gone, now, k);
      var next := n;
      visited, n, now, k := WalkOn(pos, n, head, gone, visited, s, now, k);
      pos := next;
    }
    ElementsApart(head, now);
    WalkEnd(s, visited, gone, now);
  }
}
