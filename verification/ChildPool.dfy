/** The child buses of a Modbus/TCP listener and their recycling (sdk/acq_modbus/modbus_tcp.c): children are
    handed out from an allocation pool, hang on their listener's list while their session lasts, and go
    back to the pool.  Pool and lists are intrusive lists through the same hook. */
module ChildPool {
  import opened Basics
  import opened ModbusList

  /** A list head with, as history, the hooks that are on it. */
  class Queue {
    const head: ListHead
    ghost var items: seq<ListHead>

    constructor ()
      ensures fresh(head) && head.owner == null && items == [] && Circular(head, [])
    {
      head := new ListHead(null);
      items := [];
    }
  }

  class Listener {
    const children: Queue
    var fd: int

    constructor ()
      ensures fresh(children) && fresh(children.head) && children.head.owner == null
      ensures children.items == [] && Circular(children.head, []) && fd == -1
    {
      children := new Queue();
      fd := -1;
    }
  }

  /** struct modbus_tcp_child. `place` is history: the list the child is on, or none while a thread holds it. */
  class Child {
    var hook: ListHead
    var childHead: ListHead?
    var mother: Listener?
    var fd: int
    var finished: bool
    ghost var place: Queue?

    constructor ()
      ensures fresh(hook) && hook.owner == this && childHead == null && place == null
    {
      childHead, mother, fd, finished, place := null, null, -1, false, null;
      hook := new ListHead(null);
      new;
      hook := new ListHead(this);
    }
  }

  predicate IsChild(h: ListHead) {
    h.owner != null && h.owner is Child
  }

  function ChildOf(h: ListHead): Child
    requires IsChild(h)
  {
    h.owner as Child
  }

  /** Everything there is: the pool, the lists of all listeners, and all allocated children. */
  class Heap {
    const pool: Queue
    ghost var queues: set<Queue>
    ghost var all: set<Child>
    ghost var nodes: set<ListHead>

    /** `c` is on exactly the list `place` says, and its child_head is its own hook. */
    ghost predicate Placed(c: Child)
      reads this, c, queues
    {
      && c.hook in nodes && c.hook.owner == c && c.childHead == c.hook
      && (c.place != null ==> c.place in queues && c.hook in c.place.items)
      && (c.place != null && c.place != pool ==> c.mother != null && c.mother.children == c.place)
    }

    /** `h` is the hook of a child that is placed on `q`. */
    ghost predicate OnQueue(q: Queue, h: ListHead)
      reads this, all
    {
      h in nodes && IsChild(h) && ChildOf(h) in all && ChildOf(h).hook == h && ChildOf(h).place == q
    }

    /** The lists hold the hooks of exactly the children placed on them. This says nothing of the links. */
    ghost predicate Members()
      reads this, queues, all
    {
      && pool in queues
      && (forall q, r :: q in queues && r in queues && q != r ==> q.head != r.head)
      && (forall q :: q in queues ==> q.head in nodes && q.head.owner == null)
      && (forall q :: q in queues ==> forall i {:trigger q.items[i]} :: 0 <= i < |q.items| ==> OnQueue(q, q.items[i]))
      && (forall c :: c in all ==> Placed(c))
    }

    ghost predicate Rings()
      requires Members()
      reads this, queues, all, nodes
    {
      forall q :: q in queues ==> Circular(q.head, q.items)
    }

    ghost predicate Valid()
      reads this, queues, all, nodes
    {
      Members() && Rings()
    }

    constructor ()
      ensures Valid() && all == {} && queues == {pool} && pool.items == []
      ensures fresh(pool) && fresh(pool.head) && nodes == {pool.head}
    {
      pool := new Queue();
      new;
      queues, all, nodes := {pool}, {}, {pool.head};
    }

    /** new_modbus_tcp_slave_ipaddr: a listener without children joins. */
    method NewListener() returns (l: Listener)
      requires Valid()
      modifies this`queues, this`nodes
      ensures Valid() && fresh(l) && fresh(l.children) && fresh(l.children.head)
      ensures queues == old(queues) + {l.children} && nodes == old(nodes) + {l.children.head}
      ensures l.children != pool && l.children.items == [] && l.fd == -1
    {
      l := new Listener();
      AddQueue(l.children);
    }

    ghost method AddQueue(q: Queue)
      requires Valid() && q !in queues && q.head !in nodes && q.head.owner == null
      requires q.items == [] && Circular(q.head, [])
      modifies this`queues, this`nodes
      ensures Valid() && queues == old(queues) + {q} && nodes == old(nodes) + {q.head}
    {
      hide Circular, OnQueue, Placed;
      queues, nodes := queues + {q}, nodes + {q.head};
      StillPlaced();
      StillOnQueue({});
      assert forall r :: r in queues ==> r.head in nodes && r.head.owner == null;
      assert Members() && Rings();
    }

    /** When lists and nodes only join and none of the old ones is touched, every child is still placed. */
    twostate lemma StillPlaced()
      requires old(Members()) && old(queues) <= queues && old(nodes) <= nodes
      requires unchanged(old(queues)) && unchanged(old(all))
      ensures forall c :: c in old(all) ==> Placed(c)
    {
      forall c | c in old(all) ensures Placed(c) {
        assert old(Placed(c));
      }
    }

    /** When besides no child on a list is given up, the old lists hold what they held. */
    twostate lemma StillOnQueue(gone: set<Child>)
      requires old(Members()) && old(nodes) <= nodes && old(all) - gone <= all
      requires unchanged(old(queues)) && unchanged(old(all)) && forall c :: c in gone ==> c.place == null
      ensures forall q :: q in old(queues) ==>
        forall i {:trigger q.items[i]} :: 0 <= i < |q.items| ==> OnQueue(q, q.items[i])
    {
      forall q, i {:trigger q.items[i]} | q in old(queues) && 0 <= i < |q.items| ensures OnQueue(q, q.items[i]) {
        assert old(OnQueue(q, q.items[i]));
      }
    }

    /** Different lists have no node in common. */
    lemma ListsApart(q: Queue, r: Queue)
      requires Members() && q in queues && r in queues && q != r
      ensures forall x :: x in [q.head] + q.items ==> x !in [r.head] + r.items
    {
    }

    /** A child that is held is on no list. */
    lemma HeldIsOff(c: Child, q: Queue)
      requires Members() && c in all && c.place == null && q in queues
      ensures c.hook !in [q.head] + q.items
    {
    }

    /** list_add_tail of a held child: the links of the other lists stay. */
    method LinkTail(q: Queue, c: Child)
      requires Valid() && q in queues && c in all && c.place == null
      modifies nodes
      ensures Members() && Circular(q.head, q.items + [c.hook])
      ensures forall r :: r in queues && r != q ==> Circular(r.head, r.items)
    {
      HeldIsOff(c, q);
      Neighbours([q.head] + q.items, 0);
      forall r | r in queues && r != q
        ensures c.hook !in [r.head] + r.items && forall x :: x in [q.head] + q.items ==> x !in [r.head] + r.items
      {
        HeldIsOff(c, r);
        ListsApart(q, r);
      }
      ListAddTail(c.hook, q.head, q.items);
    }

    /** History follows what was done to the links of `q`. */
    ghost method Record(q: Queue, c: Child, items: seq<ListHead>, place: Queue?)
      requires Members() && q in queues && c in all && (c.place == null || c.place == q)
      requires place == null || place == q
      requires place != null && q != pool ==> c.mother != null && c.mother.children == q
      requires forall x :: x in items <==> (x in q.items && x != c.hook) || (x == c.hook && place == q)
      modifies q`items, c`place
      ensures Members() && q.items == items && c.place == place
    {
      q.items := items;
      c.place := place;
      forall i | 0 <= i < |items| ensures OnQueue(q, items[i]) {
        assert items[i] in items;
      }
    }

    method Put(q: Queue, c: Child)
      requires Valid() && q in queues && c in all && c.place == null
      requires q != pool ==> c.mother != null && c.mother.children == q
      modifies nodes, q`items, c`place
      ensures Valid()
      ensures c.place == q && q.items == old(q.items) + [c.hook]
    {
      hide Circular;
      LinkTail(q, c);
      Record(q, c, q.items + [c.hook], q);
      assert forall r :: r in queues ==> Circular(r.head, r.items);
    }

    /** list_del: the child at `k` leaves the list; the links of the other lists stay. */
    method UnlinkAt(q: Queue, c: Child, ghost k: nat)
      requires Valid() && q in queues && k < |q.items| && q.items[k] == c.hook && c in all
      modifies nodes
      ensures Members() && Circular(q.head, Without(q.items, k))
      ensures forall x :: x in Without(q.items, k) <==> x in q.items && x != c.hook
      ensures forall r :: r in queues && r != q ==> Circular(r.head, r.items)
    {
      Neighbours([q.head] + q.items, k + 1);
      ElementsDiffer(q.head, q.items, k);
      forall r | r in queues && r != q
        ensures forall x :: x in [q.head] + q.items ==> x !in [r.head] + r.items
      {
        ListsApart(q, r);
      }
      ListDel(c.hook, q.head, q.items, k);
    }

    method Take(q: Queue, c: Child, ghost k: nat)
      requires Valid() && q in queues && k < |q.items| && q.items[k] == c.hook && c in all
      modifies nodes, q`items, c`place
      ensures Valid()
      ensures c.place == null && q.items == Without(old(q.items), k)
    {
      hide Circular, Without;
      UnlinkAt(q, c, k);
      Record(q, c, Without(q.items, k), null);
      assert forall r :: r in queues ==> Circular(r.head, r.items);
    }

    /** Every allocated child is on exactly the list it is placed on, once, or on none while it is held; a
        child_head is the child's own hook. */
    lemma OnExactlyOneList(c: Child, q: Queue)
      requires Valid() && c in all && q in queues
      ensures c.hook in q.items <==> c.place == q
      ensures forall i, j :: 0 <= i < j < |q.items| ==> q.items[i] != q.items[j]
      ensures c.childHead == c.hook
    {
      assert forall i :: 0 <= i < |q.items| ==> q.items[i] == ([q.head] + q.items)[i + 1];
    }

    /** get_modbus_tcp_child: recycled from the front of the pool, or allocated when the pool is empty. */
    method GetChild() returns (c: Child)
      requires Valid()
      modifies this`all, this`nodes, nodes, pool`items, all`place
      ensures Valid() && c in all && c.place == null && queues == old(queues)
      ensures if old(pool.items) == [] then fresh(c) && all == old(all) + {c} && pool.items == []
              else all == old(all) && c.hook == old(pool.items)[0] && pool.items == old(pool.items)[1..]
      ensures fresh(nodes - old(nodes))
      ensures forall d :: d in old(all) && d != c ==> d.place == old(d.place)
      ensures c in old(all) ==> old(c.place) == pool
    {
      var empty := ListEmpty(pool.head, pool.items);
      if empty {
        c := new Child();
        c.childHead := c.hook;
        AddAllocated(c);
      } else {
        Neighbours([pool.head] + pool.items, 0);
        c := pool.head.next.owner as Child;
        Take(pool, c, 0);
      }
    }

    ghost method AddAllocated(c: Child)
      requires Valid() && c !in all && c.hook.owner == c && c.childHead == c.hook && c.place == null
      modifies this`all, this`nodes
      ensures Valid() && all == old(all) + {c} && nodes == old(nodes) + {c.hook}
    {
      hide Circular, OnQueue;
      all, nodes := all + {c}, nodes + {c.hook};
      StillPlaced();
      StillOnQueue({});
      assert Members() && Rings();
    }

    /** free_modbus_tcp_child: back to the end of the pool. */
    method FreeChild(c: Child)
      requires Valid() && c in all && c.place == null
      modifies nodes, pool`items, c`place
      ensures Valid() && c.place == pool && pool.items == old(pool.items) + [c.hook]
    {
      Put(pool, c);
    }

    /** new_modbus_tcp_child; `created` is the outcome of modbus_create. When it fails the child is freed for
        good and is no longer allocated. */
    method NewChild(mother: Listener, socket: int, created: bool) returns (r: Child?)
      requires Valid()
      modifies this`all, this`nodes, nodes, pool`items, all`place, all`mother, all`fd, all`finished
      ensures Valid() && queues == old(queues)
      ensures pool.items == if old(pool.items) == [] then [] else old(pool.items)[1..]
      ensures fresh(nodes - old(nodes)) && fresh(all - old(all))
      ensures r != null && old(pool.items) != [] ==> r.hook == old(pool.items)[0] && r in old(all)
      ensures r != null && r in old(all) ==> old(r.place) == pool
      ensures forall d :: d in old(all) && old(d.place) != pool ==> d in all
      ensures created <==> r != null
      ensures r != null ==>
        && r in all && all == old(all) + {r} && r.place == null
        && r.mother == mother && r.fd == socket && !r.finished && r.childHead == r.hook
      ensures r == null ==>
        forall d :: d in all <==> d in old(all) && (old(pool.items) == [] || d.hook != old(pool.items)[0])
      ensures forall d :: d in old(all) && d in all && d != r ==>
        d.place == old(d.place) && d.mother == old(d.mother) && d.fd == old(d.fd) && d.finished == old(d.finished)
    {
      var c := GetChild();
      if !created {
        Discard(c);
        return null;
      }
      SetMother(c, mother, socket);
      r := c;
    }

    ghost method Discard(c: Child)
      requires Valid() && c in all && c.place == null
      modifies this`all
      ensures Valid() && all == old(all) - {c}
    {
      hide Circular, OnQueue, Placed;
      all := all - {c};
      StillPlaced();
      StillOnQueue({c});
      assert Members() && Rings();
    }

    method SetMother(c: Child, mother: Listener, socket: int)
      requires Valid() && c in all && c.place == null
      modifies c`mother, c`fd, c`finished
      ensures Valid() && c.mother == mother && c.fd == socket && !c.finished
    {
      hide Circular;
      c.mother, c.fd, c.finished := mother, socket, false;
    }

    /** add_child: onto the end of its mother's list. */
    method AddChild(l: Listener, c: Child)
      requires Valid() && l.children in queues && l.children != pool
      requires c in all && c.place == null && c.mother == l
      modifies nodes, l.children`items, c`place
      ensures Valid() && c.place == l.children && l.children.items == old(l.children.items) + [c.hook]
    {
      Put(l.children, c);
    }

    /** tcp_child_dtor: del_child and free_modbus_tcp_child, both through child_head. */
    method ChildDtor(bus: Child, ghost k: nat)
      requires Valid() && bus in all && bus.mother != null && bus.mother.children != pool
      requires bus.place == bus.mother.children
      requires k < |bus.mother.children.items| && bus.mother.children.items[k] == bus.hook
      modifies nodes, bus.mother.children`items, pool`items, bus`place
      ensures Valid() && bus.place == pool
      ensures bus.mother.children.items == Without(old(bus.mother.children.items), k)
      ensures pool.items == old(pool.items) + [bus.hook]
    {
      var c := bus.childHead.owner as Child;
      Take(bus.mother.children, c, k);
      FreeChild(c);
    }

    /** Assumed of modbus_close on a child: the socket is closed, the bus is finished, and it ends in the dtor. */
    method CloseChild(bus: Child, ghost k: nat)
      requires Valid() && bus in all && bus.mother != null && bus.mother.children != pool
      requires bus.place == bus.mother.children
      requires k < |bus.mother.children.items| && bus.mother.children.items[k] == bus.hook
      modifies nodes, bus.mother.children`items, pool`items, bus`place, bus`fd, bus`finished
      ensures Valid() && bus.place == pool && bus.fd == -1 && bus.finished
      ensures bus.mother.children.items == Without(old(bus.mother.children.items), k)
      ensures pool.items == old(pool.items) + [bus.hook]
    {
      Shut(bus);
      ChildDtor(bus, k);
    }

    method Shut(bus: Child)
      requires Valid() && bus in all
      modifies bus`fd, bus`finished
      ensures Valid() && bus.fd == -1 && bus.finished
    {
      hide Circular;
      bus.fd, bus.finished := -1, true;
    }

    /** Lines 657-658: the first child is looked up and closed. */
    method CloseFirst(l: Listener) returns (child: Child)
      requires Valid() && l.children in queues && l.children != pool && l.children.items != []
      modifies nodes, l.children`items, pool`items, all`place, all`fd, all`finished
      ensures Valid() && child in all && child.hook == old(l.children.items)[0] && old(child.place) == l.children
      ensures child.place == pool && child.fd == -1 && child.finished
      ensures l.children.items == old(l.children.items)[1..] && pool.items == old(pool.items) + [child.hook]
      ensures forall c :: c in all && c != child ==>
        c.place == old(c.place) && c.fd == old(c.fd) && c.finished == old(c.finished)
    {
      NextElement(l.children.head, l.children.items, |l.children.items|);
      child := l.children.head.next.owner as Child;
      CloseChild(child, 0);
    }

    lemma NoneListed(q: Queue)
      requires Valid() && q in queues && q.head.next == q.head
      ensures q.items == [] && forall c :: c in all ==> c.place != q
    {
      NextElement(q.head, q.items, |q.items|);
      HeadApart(q.head, q.items);
    }

    lemma SomeListed(q: Queue)
      requires Valid() && q in queues && q.head.next != q.head
      ensures q.items != []
    {
      NextElement(q.head, q.items, |q.items|);
    }

    /** inval_modbus_tcp_server: closes the first child until none is left. All of them are back in the pool,
        in order, and no other list has changed. */
    method InvalServer(l: Listener)
      requires Valid() && l.children in queues && l.children != pool
      modifies l, nodes, l.children`items, pool`items, all`place, all`fd, all`finished
      ensures Valid() && l.fd == -1
      ensures l.children.items == [] && pool.items == old(pool.items) + old(l.children.items)
      ensures forall c :: c in all ==> c.place == if old(c.place) == l.children then pool else old(c.place)
      ensures forall c :: c in all && old(c.place) == l.children ==> c.fd == -1 && c.finished
      ensures forall c :: c in all && old(c.place) != l.children ==> c.fd == old(c.fd) && c.finished == old(c.finished)
    {
      hide Members, Circular;
      l.fd := -1;
      ghost var q := l.children;
      while l.children.head.next != l.children.head
        invariant Valid() && l.fd == -1
        invariant pool.items + q.items == old(pool.items) + old(q.items)
        invariant forall c :: c in all ==>
          if c.place == old(c.place) then c.fd == old(c.fd) && c.finished == old(c.finished)
          else old(c.place) == q && c.place == pool && c.fd == -1 && c.finished
        decreases |q.items|
      {
        SomeListed(q);
        var child := CloseFirst(l);
      }
      NoneListed(q);
    }

    // ----- sessions

    /** The child with this hook serves the socket on the listener's list. */
    ghost predicate Serves(l: Listener, h: ListHead, socket: int)
      reads this, all
    {
      IsChild(h) && ChildOf(h) in all && var c := ChildOf(h);
      c.hook == h && c.place == l.children && c.mother == l && c.fd == socket && !c.finished
    }

    /** accept_thr for one accepted socket: a child is made and put on the listener's list; when that fails only
        the socket is closed. No other child is touched, and only one from the pool is used again. */
    method Accept(l: Listener, socket: int, created: bool) returns (r: Child?)
      requires Valid() && l.children in queues && l.children != pool
      modifies this`all, this`nodes, nodes, pool`items, l.children`items, all`place, all`mother, all`fd, all`finished
      ensures Valid() && queues == old(queues) && fresh(nodes - old(nodes)) && fresh(all - old(all))
      ensures pool.items == if old(pool.items) == [] then [] else old(pool.items)[1..]
      ensures created <==> r != null
      ensures l.children.items == old(l.children.items) + if r != null then [r.hook] else []
      ensures r != null ==> Serves(l, r.hook, socket) && (r in old(all) ==> old(r.place) == pool)
      ensures created && old(pool.items) != [] ==> all == old(all)
      ensures forall d :: d in old(all) && d in all && d != r ==>
        d.place == old(d.place) && d.mother == old(d.mother) && d.fd == old(d.fd) && d.finished == old(d.finished)
      ensures forall d :: d in old(all) && old(d.place) != pool ==> d in all
    {
      hide Members, Rings;
      r := NewChild(l, socket, created);
      if r != null {
        HookOf(r);
        AddChild(l, r);
        HookOf(r);
      }
    }

    lemma HookOf(c: Child)
      requires Valid() && c in all
      ensures IsChild(c.hook) && ChildOf(c.hook) == c
    {
    }

    /** One session for each socket: in order, each served by a child of its own. Children outside the pool are not
        touched. */
    method AcceptAll(l: Listener, sockets: seq<int>)
      requires Valid() && l.children in queues && l.children != pool
      modifies this`all, this`nodes, nodes, pool`items, l.children`items, all`place, all`mother, all`fd, all`finished
      ensures Valid() && queues == old(queues) && fresh(nodes - old(nodes)) && fresh(all - old(all))
      ensures |l.children.items| == |old(l.children.items)| + |sockets| && old(l.children.items) <= l.children.items
      ensures forall i :: 0 <= i < |sockets| ==> Serves(l, l.children.items[|old(l.children.items)| + i], sockets[i])
      ensures |pool.items| == if |sockets| <= |old(pool.items)| then |old(pool.items)| - |sockets| else 0
      ensures |sockets| <= |old(pool.items)| ==> all == old(all)
      ensures forall d :: d in old(all) && old(d.place) != pool ==>
        && d in all && d.place == old(d.place) && d.mother == old(d.mother)
        && d.fd == old(d.fd) && d.finished == old(d.finished)
    {
      hide Valid;
      ghost var n := |l.children.items|;
      for i := 0 to |sockets|
        invariant Valid() && queues == old(queues) && fresh(nodes - old(nodes)) && fresh(all - old(all))
        invariant |l.children.items| == n + i && old(l.children.items) <= l.children.items
        invariant forall j :: 0 <= j < i ==> Serves(l, l.children.items[n + j], sockets[j])
        invariant |pool.items| == if i <= |old(pool.items)| then |old(pool.items)| - i else 0
        invariant i <= |old(pool.items)| ==> all == old(all)
        invariant forall d :: d in old(all) && old(d.place) != pool ==>
          && d in all && d.place == old(d.place) && d.mother == old(d.mother)
          && d.fd == old(d.fd) && d.finished == old(d.finished)
      {
        var c := Accept(l, sockets[i], true);
      }
    }

    /** Recycling: once a listener has had its sessions and was closed, as many sessions again, on whatever listener,
        need no new child. */
    method Recycle(first: Listener, second: Listener, sockets: seq<int>, again: seq<int>)
        returns (ghost children: set<Child>)
      requires Valid() && first.children in queues && first.children != pool
      requires second.children in queues && second.children != pool
      requires |again| <= |sockets|
      modifies this`all, this`nodes, nodes, first, pool`items, first.children`items, second.children`items
      modifies all`place, all`mother, all`fd, all`finished
      ensures Valid() && all == children && fresh(children - old(all)) && first.fd == -1
      ensures var n := if first.children == second.children then 0 else |old(second.children.items)|;
        && |second.children.items| == n + |again|
        && forall i :: 0 <= i < |again| ==> Serves(second, second.children.items[n + i], again[i])
      ensures first.children != second.children ==> first.children.items == []
      ensures forall d :: d in old(all) && old(d.place) != pool && old(d.place) != first.children ==>
        && d in all && d.place == old(d.place) && d.mother == old(d.mother)
        && d.fd == old(d.fd) && d.finished == old(d.finished)
    {
      hide Valid;
      AcceptAll(first, sockets);
      children := all;
      InvalServer(first);
      AcceptAll(second, again);
    }
  }
}
