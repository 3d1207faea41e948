/** A circular doubly linked list whose elements come from a pool of 64 slots before any is
    allocated. Slot 0 is the head of the ring and holds no data. */
module PoolList {

  const SIZE := 64

  /** A data pointer. */
  type Ptr = nat
  const NULL: Ptr := 0

  datatype Status = Unused | Used | Malloc

  class Element {
    /** Where in the pool the element lies; negative for an allocated one. */
    ghost const slot: int
    var status: Status
    var prev: Element?
    var next: Element?
    var data: Ptr

    constructor (status: Status, ghost slot: int)
      ensures this.status == status && prev == null && next == null && data == NULL
      ensures this.slot == slot
    {
      this.status, prev, next, data := status, null, null, NULL;
      this.slot := slot;
    }
  }

  predicate Distinct(s: seq<Element>) {
    forall i, j :: 0 <= i < j < |s| ==> s[i] != s[j]
  }

  function After(i: nat, n: nat): (r: nat)
    requires i < n
    ensures r < n
  {
    if i + 1 < n then i + 1 else 0
  }

  function Before(i: nat, n: nat): (r: nat)
    requires i < n
    ensures r < n
  {
    if i > 0 then i - 1 else n - 1
  }

  /** `next` walks the ring forwards and `prev` walks it back. */
  ghost predicate Linked(s: seq<Element>)
    reads s
  {
    && (forall i {:trigger s[i].next} :: 0 <= i < |s| ==> s[i].next == s[After(i, |s|)])
    && (forall i {:trigger s[i].prev} :: 0 <= i < |s| ==> s[i].prev == s[Before(i, |s|)])
  }

  /** Following `next` and then `prev`, or the other way round, leads back. */
  lemma NextAndPrevAreInverse(s: seq<Element>, i: nat)
    requires Linked(s) && i < |s|
    ensures s[i].next != null && s[i].next.prev == s[i]
    ensures s[i].prev != null && s[i].prev.next == s[i]
  {
    var n, p := After(i, |s|), Before(i, |s|);
    assert s[n].prev == s[i] && s[p].next == s[i];
  }

  /** The ring with element `k`, not the head, passed over. */
  ghost predicate LinkedPast(s: seq<Element>, k: nat)
    requires 0 < k < |s|
    reads s
  {
    && (forall i {:trigger s[i].next} :: 0 <= i < |s| && i != k ==>
          s[i].next == s[if i == k - 1 then After(k, |s|) else After(i, |s|)])
    && (forall i {:trigger s[i].prev} :: 0 <= i < |s| && i != k ==>
          s[i].prev == s[if i == After(k, |s|) then k - 1 else Before(i, |s|)])
  }

  lemma CloseUp(s: seq<Element>, k: nat)
    requires 0 < k < |s| && Distinct(s) && LinkedPast(s, k)
    ensures var t := s[..k] + s[k + 1..];
            Distinct(t) && Linked(t)
  {
    var t := s[..k] + s[k + 1..];
    forall i | 0 <= i < |t|
      ensures t[i].next == t[After(i, |t|)] && t[i].prev == t[Before(i, |t|)]
    {
      var j := if i < k then i else i + 1;
      assert t[i] == s[j];
    }
  }

  /** The ring with `el` put in between its last element and its head. */
  ghost predicate LinkedWith(s: seq<Element>, el: Element)
    requires s != []
    reads s, el
  {
    && el.next == s[0] && el.prev == s[|s| - 1]
    && (forall i {:trigger s[i].next} :: 0 <= i < |s| ==> s[i].next == if i + 1 < |s| then s[i + 1] else el)
    && (forall i {:trigger s[i].prev} :: 0 <= i < |s| ==> s[i].prev == if i > 0 then s[i - 1] else el)
  }

  lemma OpenUp(s: seq<Element>, el: Element)
    requires s != [] && Distinct(s) && LinkedWith(s, el) && forall i :: 0 <= i < |s| ==> s[i] != el
    ensures Distinct(s + [el]) && Linked(s + [el])
  {
    var t := s + [el];
    forall i | 0 <= i < |t|
      ensures t[i].next == t[After(i, |t|)] && t[i].prev == t[Before(i, |t|)]
    {
      if i < |s| {
        assert t[i] == s[i];
      }
    }
  }

  /** The index of the first `x` in `s`, or the length of `s`. */
  function Find(s: seq<Ptr>, x: Ptr): (r: nat)
    ensures r <= |s| && (r < |s| ==> s[r] == x)
    ensures forall i :: 0 <= i < r ==> s[i] != x
  {
    if s == [] || s[0] == x then 0 else 1 + Find(s[1..], x)
  }

  lemma {:induction false} FirstMatch(s: seq<Ptr>, x: Ptr, i: nat)
    requires i < |s| && s[i] == x && forall j :: 0 <= j < i ==> s[j] != x
    ensures Find(s, x) == i
    decreases i
  {
    if i > 0 {
      FirstMatch(s[1..], x, i - 1);
    }
  }

  function Without(s: seq<Ptr>, i: nat): seq<Ptr>
    requires i < |s|
  {
    s[..i] + s[i + 1..]
  }

  /** A pool with fewer used slots than slots has an unused one. */
  lemma {:induction false} FullPool(used: set<nat>, n: nat)
    requires forall i: nat :: i < n ==> i in used
    ensures |used| >= n
    decreases n
  {
    if n > 0 {
      FullPool(used - {n - 1}, n - 1);
    }
  }

  lemma Fewer<T>(a: set<T>, b: set<T>)
    requires a <= b
    ensures |a| <= |b|
  {
    assert b == a + (b - a);
  }

  class List {
    const buf: seq<Element>
    ghost const slots: set<Element>
    var count: int

    ghost var used: set<nat>
    /** The elements handed out and not given back. */
    ghost var ring: set<Element>
    /** The ring from the head on; empty before the first append. */
    ghost var nodes: seq<Element>
    /** The sequence the ring stands for: the data behind the head. */
    ghost var items: seq<Ptr>

    ghost predicate Slots()
      reads this
    {
      |buf| == SIZE && forall i :: 0 <= i < SIZE ==> buf[i] in slots && buf[i].slot == i
    }

    ghost predicate Pooled(e: Element)
      requires |buf| == SIZE
      reads this
    {
      0 <= e.slot < SIZE && buf[e.slot] == e
    }

    /** The counter is the number of used slots, and these are the slots handed out. */
    ghost predicate Pool()
      reads this, slots, ring
    {
      && Slots()
      && (forall i: nat :: i in used ==> i < SIZE && buf[i] in ring)
      && (forall i: nat :: i < SIZE ==> buf[i].status != Malloc && (i in used <==> buf[i].status == Used))
      && (forall e :: e in ring ==> if Pooled(e) then e.slot in used else e.slot < 0 && e.status == Malloc)
      && count == |used|
    }

    /** The ring is made of exactly the elements handed out. */
    ghost predicate Inside()
      reads this
    {
      |ring| == |nodes| && forall i :: 0 <= i < |nodes| ==> nodes[i] in ring
    }

    /** The ring is closed and stands for `items`. */
    ghost predicate Ring()
      reads this, nodes
    {
      && |nodes| == |items| + 1 && Distinct(nodes) && Linked(nodes)
      && forall i {:trigger nodes[i].data} :: 1 <= i < |nodes| ==> nodes[i].data == items[i - 1]
    }

    ghost predicate Valid()
      reads this, slots, ring
    {
      && Slots()
      && if nodes == [] then buf[0].next == null && items == [] && ring == {}
         else nodes[0] == buf[0] && Inside() && Ring() && Pool()
    }

    /** When the pool is used up, the ring holds every slot, so all but the head carry an item. */
    lemma Crowded()
      requires Valid() && nodes != []
      ensures count >= SIZE ==> |items| >= SIZE - 1
    {
      InRing(used);
      Fewer(set i | i in used :: buf[i], ring);
    }

    lemma {:induction false} InRing(some: set<nat>)
      requires Pool() && some <= used
      ensures |some| <= |set i | i in some :: buf[i]|
      ensures (set i | i in some :: buf[i]) <= ring
      decreases |some|
    {
      if some != {} {
        var i :| i in some;
        InRing(some - {i});
        var rest := set j | j in some - {i} :: buf[j];
        assert (set j | j in some :: buf[j]) == rest + {buf[i]};
        assert buf[i] !in rest;
      }
    }

    /** A zeroed list, as static storage gives it. */
    constructor ()
      ensures Valid() && nodes == [] && fresh(slots)
    {
      var all: seq<Element> := [];
      while |all| < SIZE
        invariant |all| <= SIZE && fresh(all)
        invariant forall i :: 0 <= i < |all| ==> all[i].slot == i && all[i].next == null
      {
        var e := new Element(Unused, |all|);
        all := all + [e];
      }
      buf, count, used, nodes, items, ring := all, 0, {}, [], [], {};
      slots := set e | e in all;
    }

    /** PRE_ALLOC: a slot while the pool has one, an allocated element otherwise. `granted` is what malloc
        does if it is asked; it is fatal if it gives nothing. */
    method PreAlloc(granted: bool) returns (el: Element?)
      requires Pool()
      modifies this`count, this`used, this`ring, slots`status
      ensures Pool() && (el == null <==> old(count) >= SIZE && !granted)
      ensures el == null ==> ring == old(ring)
      ensures el != null ==> el !in old(ring) && ring == old(ring) + {el}
      ensures el != null ==> if old(count) < SIZE then el in slots else fresh(el)
    {
      if count >= SIZE {
        if !granted {
          return null;
        }
        el := new Element(Malloc, -1);
        ring := ring + {el};
        return;
      }
      var i := FirstUnused();
      el := buf[i];
      TakeSlot(i, el);
    }

    method TakeSlot(i: nat, el: Element)
      requires Pool() && i < SIZE && el == buf[i] && el.status == Unused
      modifies this`count, this`used, this`ring, el`status
      ensures Pool() && el !in old(ring) && ring == old(ring) + {el}
    {
      count := count + 1;
      el.status := Used;
      used, ring := used + {i}, ring + {el};
    }

    /** The search of PRE_ALLOC, which never runs off the end of the pool. */
    method FirstUnused() returns (i: nat)
      requires Pool() && count < SIZE
      ensures i < SIZE && buf[i].status == Unused
      ensures forall j :: 0 <= j < i ==> buf[j].status == Used
    {
      i := 0;
      while i < SIZE
        invariant i <= SIZE
        invariant forall j: nat :: j < i ==> j in used
      {
        if buf[i].status == Unused {
          return;
        }
        i := i + 1;
      }
      FullPool(used, SIZE);
    }

    /** PRE_FREE. It is fatal to free an element that is not handed out. */
    method PreFree(el: Element) returns (fatal: bool)
      requires Pool() && (el in ring || el in buf)
      modifies this`count, this`used, this`ring, el`status
      ensures Pool() && ring == old(ring) - {el}
      ensures fatal <==> el !in old(ring)
    {
      match el.status {
        case Used =>
          fatal := FreeSlot(el);
        case Malloc =>
          FreeBox(el);
          fatal := false;
        case Unused =>
          fatal := true;
      }
    }

    /** A slot goes back to the pool; the counter cannot run below zero. */
    method FreeSlot(el: Element) returns (fatal: bool)
      requires Pool() && (el in ring || el in buf) && el.status == Used
      modifies this`count, this`used, this`ring, el`status
      ensures Pool() && ring == old(ring) - {el}
      ensures !fatal && el in old(ring)
    {
      el.status := Unused;
      count, used, ring := count - 1, used - {el.slot as nat}, ring - {el};
      fatal := count < 0;
    }

    /** An allocated element is given back to the allocator. */
    method FreeBox(el: Element)
      requires Pool() && (el in ring || el in buf) && el.status == Malloc
      modifies this`ring, el`status
      ensures Pool() && ring == old(ring) - {el} && el in old(ring)
    {
      el.status := Unused;
      ring := ring - {el};
    }

    method Wipe()
      requires Slots()
      modifies slots
      ensures forall j :: 0 <= j < SIZE ==> buf[j].status == Unused
    {
      var i := 0;
      while i < SIZE
        invariant 0 <= i <= SIZE
        invariant forall j :: 0 <= j < i ==> buf[j].status == Unused
        modifies slots
      {
        buf[i].status, buf[i].prev, buf[i].next, buf[i].data := Unused, null, null, NULL;
        i := i + 1;
      }
    }

    /** The set-up of the first append: clear every slot, then take slot 0 as the head. */
    method Initialize()
      requires Valid() && nodes == []
      modifies this, slots
      ensures Valid() && nodes == [buf[0]] && items == [] && ring == {buf[0]} && count == 1
    {
      Wipe();
      count, used := 0, {};
      var head := buf[0];
      head.status := Used;
      count, used := count + 1, used + {0};
      head.next, head.prev := head, head;
      nodes, ring := [head], {head};
    }

    /** Put a new element between the last one and the head. */
    method Link(el: Element, x: Ptr)
      requires Ring() && buf != [] && nodes[0] == buf[0]
      requires forall i :: 0 <= i < |nodes| ==> nodes[i] != el
      modifies this`nodes, this`items, el`prev, el`next, el`data, nodes`prev, nodes`next
      ensures Ring() && nodes == old(nodes) + [el] && items == old(items) + [x]
    {
      el.data := x;
      Join(el);
      nodes, items := nodes + [el], items + [x];
    }

    method Join(el: Element)
      requires buf != [] && nodes != [] && nodes[0] == buf[0] && Distinct(nodes) && Linked(nodes)
      requires forall i :: 0 <= i < |nodes| ==> nodes[i] != el
      modifies el`prev, el`next, nodes`prev, nodes`next
      ensures Distinct(nodes + [el]) && Linked(nodes + [el])
    {
      var head := buf[0];
      assert nodes[0].prev == nodes[|nodes| - 1];
      el.next := head;
      el.prev := head.prev;
      head.prev.next := el;
      head.prev := el;
      OpenUp(nodes, el);
    }

    /** An append to a ring that is set up. */
    method Push(x: Ptr, granted: bool) returns (fatal: bool)
      requires Valid() && nodes != []
      modifies this, slots, ring
      ensures Valid() && nodes != [] && fresh(ring - old(ring) - slots)
      ensures fatal <==> old(count) >= SIZE && !granted
      ensures items == if fatal then old(items) else old(items) + [x]
    {
      var el := PreAlloc(granted);
      fatal := el == null;
      if !fatal {
        Link(el, x);
      }
    }

    /** list_append. It is fatal if the pool is used up and malloc gives nothing. */
    method Append(x: Ptr, granted: bool) returns (fatal: bool)
      requires Valid()
      modifies this, slots, ring
      ensures Valid() && nodes != [] && fresh(ring - old(ring) - slots)
      ensures fatal <==> old(nodes) != [] && old(count) >= SIZE && !granted
      ensures items == if fatal then old(items) else old(items) + [x]
    {
      var head := buf[0];
      if nodes != [] {
        NextAndPrevAreInverse(nodes, 0);
      }
      if head.next == null {
        Initialize();
      }
      fatal := Push(x, granted);
    }

    /** LIST_FOREACH looking for `x`: walk from the head until it is met. It is fatal to walk a list
        that was never set up. */
    method Seek(x: Ptr) returns (fatal: bool, at: Element?)
      requires Valid()
      ensures fatal <==> nodes == []
      ensures !fatal ==> (at == null <==> x !in items)
      ensures !fatal && at != null ==> at == nodes[Find(items, x) + 1]
    {
      var head := buf[0];
      var el := head.next;
      fatal, at := el == null, null;
      if nodes != [] {
        NextAndPrevAreInverse(nodes, 0);
      }
      if fatal {
        return;
      }
      ghost var i := 0;
      while el != head
        invariant nodes != [] && 0 <= i <= |items|
        invariant el == if i < |items| then nodes[i + 1] else head
        invariant forall j :: 0 <= j < i ==> items[j] != x
        invariant at == null
        decreases |items| - i
      {
        assert el == nodes[i + 1];
        if el.data == x {
          FirstMatch(items, x, i);
          at := el;
          return;
        }
        el := el.next;
        i := i + 1;
      }
    }

    method Contains(x: Ptr) returns (fatal: bool, found: bool)
      requires Valid()
      ensures fatal <==> nodes == []
      ensures !fatal ==> (found <==> x in items)
    {
      var at;
      fatal, at := Seek(x);
      found := at != null;
    }

    /** Let the neighbours of element `i` point past it. */
    method Bypass(ghost i: nat, el: Element)
      requires 0 < i < |nodes| && nodes[i] == el && Distinct(nodes) && Linked(nodes)
      modifies this`nodes, nodes`prev, nodes`next
      ensures nodes == old(nodes)[..i] + old(nodes)[i + 1..] && Distinct(nodes) && Linked(nodes)
    {
      assert nodes[i].prev == nodes[i - 1] && nodes[i].next == nodes[After(i, |nodes|)];
      el.prev.next := el.next;
      el.next.prev := el.prev;
      CloseUp(nodes, i);
      nodes := nodes[..i] + nodes[i + 1..];
    }

    method Unlink(ghost i: nat, el: Element)
      requires Ring() && 0 < i < |nodes| && nodes[i] == el
      modifies this`nodes, this`items, nodes`prev, nodes`next
      ensures Ring() && nodes == old(nodes)[..i] + old(nodes)[i + 1..] && items == Without(old(items), i - 1)
    {
      Bypass(i, el);
      items := Without(items, i - 1);
    }

    /** Take element `i` out of the ring and give it back to the pool or to the allocator. */
    method Drop(ghost i: nat, el: Element) returns (fatal: bool)
      requires Valid() && 0 < i < |nodes| && nodes[i] == el
      modifies this, slots, ring
      ensures !fatal && Valid() && nodes != [] && ring <= old(ring)
      ensures items == Without(old(items), i - 1)
      ensures nodes == old(nodes)[..i] + old(nodes)[i + 1..]
    {
      Unlink(i, el);
      el.data := NULL;
      fatal := PreFree(el);
    }

    method Remove(x: Ptr) returns (fatal: bool)
      requires Valid()
      modifies this, slots, ring
      ensures Valid() && fresh(ring - old(ring) - slots)
      ensures fatal <==> x !in old(items)
      ensures nodes == [] <==> old(nodes) == []
      ensures items == if fatal then old(items) else Without(old(items), Find(old(items), x))
    {
      var at;
      fatal, at := Seek(x);
      if fatal || at == null {
        return true;
      }
      fatal := Drop(Find(items, x) + 1, at);
    }

    /** LIST_FOREACH_CLEAR: visit every element in order, and leave an empty ring. */
    method Clear() returns (fatal: bool, visited: seq<Ptr>)
      requires Valid()
      modifies this, slots, ring
      ensures Valid() && fresh(ring - old(ring) - slots)
      ensures fatal <==> old(nodes) == []
      ensures fatal ==> items == old(items) && nodes == []
      ensures !fatal ==> visited == old(items) && items == [] && nodes != []
    {
      var head := buf[0];
      var el := head.next;
      fatal, visited := el == null, [];
      if nodes != [] {
        NextAndPrevAreInverse(nodes, 0);
      }
      if fatal {
        return;
      }
      while el != head
        invariant Valid() && nodes != [] && ring <= old(ring) && !fatal
        invariant el == if 1 < |nodes| then nodes[1] else head
        invariant visited + items == old(items)
        decreases |items|
      {
        assert el == nodes[1];
        var next := el.next;
        visited := visited + [el.data];
        fatal := Drop(1, el);
        el := next;
      }
    }
  }

  datatype Op = Add(x: Ptr) | Del(x: Ptr) | Has(x: Ptr) | Wipe

  datatype Answer = Done | Fatal | Is(found: bool) | Visited(all: seq<Ptr>)

  /** A plain sequence; `None` before anything was added. */
  datatype Plain = None | Some(s: seq<Ptr>)

  function Apply(m: Plain, op: Op): (Plain, Answer) {
    match op
    case Add(x) => (Some((if m.Some? then m.s else []) + [x]), Done)
    case Del(x) => if m.Some? && x in m.s then (Some(Without(m.s, Find(m.s, x))), Done) else (m, Fatal)
    case Has(x) => (m, if m.Some? then Is(x in m.s) else Fatal)
    case Wipe => if m.Some? then (Some([]), Visited(m.s)) else (m, Fatal)
  }

  /** The answers of a plain sequence to a run of operations, up to the first fatal one. */
  function Answers(m: Plain, ops: seq<Op>): seq<Answer>
    decreases |ops|
  {
    if ops == [] then []
    else
      var (n, a) := Apply(m, ops[0]);
      if a.Fatal? then [a] else [a] + Answers(n, ops[1..])
  }

  /** The plain sequence after a run of operations of which none is fatal. */
  function Result(m: Plain, ops: seq<Op>): Plain
    decreases |ops|
  {
    if ops == [] then m else Apply(Result(m, ops[..|ops| - 1]), ops[|ops| - 1]).0
  }

  ghost function View(list: List): Plain
    reads list
  {
    if list.nodes == [] then None else Some(list.items)
  }

  /** One operation answers as on a plain sequence, unless malloc gives nothing just when an append
      finds the pool used up, which is fatal. */
  method Perform(list: List, op: Op, granted: bool) returns (a: Answer, ghost failed: bool)
    requires list.Valid()
    modifies list, list.slots, list.ring
    ensures list.Valid() && fresh(list.ring - old(list.ring) - list.slots)
    ensures failed <==> op.Add? && old(list.nodes) != [] && old(list.count) >= SIZE && !granted
    ensures (View(list), a) == if failed then (old(View(list)), Fatal) else Apply(old(View(list)), op)
    ensures failed ==> View(list).Some? && |View(list).s| >= SIZE - 1
  {
    if list.nodes != [] {
      list.Crowded();
    }
    var fatal;
    failed := false;
    match op {
      case Add(x) =>
        fatal := list.Append(x, granted);
        failed := fatal;
        a := if fatal then Fatal else Done;
      case Del(x) =>
        fatal := list.Remove(x);
        a := if fatal then Fatal else Done;
      case Has(x) =>
        var found;
        fatal, found := list.Contains(x);
        a := if fatal then Fatal else Is(found);
      case Wipe =>
        var visited;
        fatal, visited := list.Clear();
        a := if fatal then Fatal else Visited(visited);
    }
  }

  /** Any run of operations on a new list answers as a plain sequence would, up to an append for which
      malloc gives nothing; malloc is not asked before the sequence fills the pool behind the head. */
  method Execute(ops: seq<Op>, granted: seq<bool>) returns (answers: seq<Answer>, ghost upTo: nat)
    requires |granted| == |ops|
    ensures upTo <= |ops| && (upTo < |ops| ==> ops[upTo].Add? && !granted[upTo])
    ensures upTo < |ops| ==> Result(None, ops[..upTo]).Some? && |Result(None, ops[..upTo]).s| >= SIZE - 1
    ensures answers == Answers(None, ops[..upTo]) + if upTo < |ops| then [Fatal] else []
  {
    var list := new List();
    answers := [];
    var i := 0;
    upTo := |ops|;
    while i < |ops|
      invariant 0 <= i <= |ops| && list.Valid() && fresh(list) && fresh(list.slots) && fresh(list.ring)
      invariant upTo == |ops| && Agrees(answers, ops, i, View(list))
    {
      ghost var before := View(list);
      var a;
      ghost var failed;
      a, failed := Perform(list, ops[i], granted[i]);
      if failed {
        upTo := i;
        StopsHere(answers, ops, i, before);
      } else {
        OneStep(answers, ops, i, before);
      }
      answers := answers + [a];
      if a.Fatal? {
        return;
      }
      i := i + 1;
    }
    assert ops[i..] == [] && ops[..|ops|] == ops;
  }

  lemma {:induction false} ResultSnoc(ops: seq<Op>, i: nat)
    requires i < |ops|
    ensures Result(None, ops[..i + 1]) == Apply(Result(None, ops[..i]), ops[i]).0
  {
    assert ops[..i + 1][..i] == ops[..i];
  }

  /** The answers so far are those of a plain sequence, which is `m` by now, whatever comes next. */
  ghost predicate Agrees(done: seq<Answer>, ops: seq<Op>, i: nat, m: Plain)
    requires i <= |ops|
  {
    && m == Result(None, ops[..i])
    && forall j :: i <= j <= |ops| ==> Answers(None, ops[..j]) == done + Answers(m, ops[i..j])
  }

  /** The next answer, when the run ends at `j`. */
  lemma {:induction false} NextAnswer(ops: seq<Op>, i: nat, j: nat, m: Plain)
    requires i < j <= |ops|
    ensures
      var (n, a) := Apply(m, ops[i]);
      Answers(m, ops[i..j]) == if a.Fatal? then [a] else [a] + Answers(n, ops[i + 1..j])
  {
    assert ops[i..j][1..] == ops[i + 1..j];
  }

  lemma {:induction false} OneStep(done: seq<Answer>, ops: seq<Op>, i: nat, m: Plain)
    requires i < |ops| && Agrees(done, ops, i, m)
    ensures
      var (n, a) := Apply(m, ops[i]);
      if a.Fatal? then Answers(None, ops) == done + [a] else Agrees(done + [a], ops, i + 1, n)
  {
    var (n, a) := Apply(m, ops[i]);
    ResultSnoc(ops, i);
    if a.Fatal? {
      NextAnswer(ops, i, |ops|, m);
      assert ops[..|ops|] == ops;
    } else {
      forall j | i + 1 <= j <= |ops|
        ensures Answers(None, ops[..j]) == (done + [a]) + Answers(n, ops[i + 1..j])
      {
        NextAnswer(ops, i, j, m);
      }
    }
  }

  lemma {:induction false} StopsHere(done: seq<Answer>, ops: seq<Op>, i: nat, m: Plain)
    requires i < |ops| && Agrees(done, ops, i, m)
    ensures Answers(None, ops[..i]) == done && m == Result(None, ops[..i])
  {
    assert ops[i..i] == [];
  }
}
