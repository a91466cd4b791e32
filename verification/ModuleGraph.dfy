/** What the loader keeps true of its module records: pure definitions and lemmas over a snapshot of memory. */
module ModuleGraph {

  // A pointer indexes the arena of module records; 0 is NULL.
  type Ptr = nat
  const NULL: Ptr := 0

  // Names are compared without case; equal values stand for equal folded names.
  type Name = nat

  /** Live until its last reference goes, dying while its dependencies are released, then freed and never touched. */
  datatype Phase = Live | Dying | Freed

  datatype Cell = Cell(phase: Phase, refcount: nat, deps: seq<Ptr>, prev: Ptr, next: Ptr,
                       initialized: bool, exe: bool, name: Name)

  type Memory = m: seq<Cell> | |m| > 0 && m[0].phase == Freed
    witness [Cell(Freed, 0, [], 0, 0, false, false, 0)]

  predicate IsLive(mem: seq<Cell>, p: Ptr) {
    p < |mem| && mem[p].phase == Live
  }

  ghost function LiveSet(mem: seq<Cell>): set<Ptr> {
    set p: Ptr | p < |mem| && mem[p].phase == Live
  }

  function Held(c: Cell): multiset<Ptr> {
    if c.phase == Live then multiset(c.deps) else multiset{}
  }

  /** All dependency slots of live modules. */
  function Slots(mem: seq<Cell>): multiset<Ptr> {
    if mem == [] then multiset{} else Slots(mem[..|mem| - 1]) + Held(mem[|mem| - 1])
  }

  lemma {:induction false} SlotsUpdate(mem: seq<Cell>, p: nat, c: Cell, q: Ptr)
    requires p < |mem|
    ensures Slots(mem[p := c])[q] + Held(mem[p])[q] == Slots(mem)[q] + Held(c)[q]
  {
    var n, m := |mem| - 1, mem[p := c];
    if p == n {
      assert m[..n] == mem[..n];
    } else {
      SlotsUpdate(mem[..n], p, c, q);
      assert m[..n] == mem[..n][p := c] && mem[..n][p] == mem[p] && m[n] == mem[n];
    }
  }

  lemma {:induction false} SlotsWitness(mem: seq<Cell>, q: Ptr) returns (n: Ptr)
    requires Slots(mem)[q] >= 1
    ensures IsLive(mem, n) && q in mem[n].deps
  {
    var k := |mem| - 1;
    if q in Held(mem[k]) {
      n := k;
    } else {
      n := SlotsWitness(mem[..k], q);
    }
  }

  lemma {:induction false} SlotsCount(mem: seq<Cell>, n: Ptr, q: Ptr)
    requires IsLive(mem, n) && q in mem[n].deps
    ensures Slots(mem)[q] >= 1
  {
    var k := |mem| - 1;
    if n < k {
      SlotsCount(mem[..k], n, q);
    }
  }

  /** Slots depend on the phase and dependencies of live cells only. */
  lemma {:induction false} SlotsSame(a: seq<Cell>, b: seq<Cell>)
    requires |a| <= |b|
    requires forall p :: 0 <= p < |a| ==> Held(a[p]) == Held(b[p])
    requires forall p :: |a| <= p < |b| ==> Held(b[p]) == multiset{}
    ensures Slots(a) == Slots(b)
    decreases |b|
  {
    hide Held;
    if b != [] {
      var n := |b| - 1;
      if |a| == |b| {
        SlotsSame(a[..n], b[..n]);
      } else {
        SlotsSame(a, b[..n]);
      }
    }
  }

  ghost predicate Distinct(list: seq<Ptr>) {
    forall i, j :: 0 <= i < j < |list| ==> list[i] != list[j]
  }

  function At(list: seq<Ptr>, i: int): Ptr {
    if 0 <= i < |list| then list[i] else NULL
  }

  /** `list` is the chain of `next` pointers from `head`, with matching `prev` pointers. */
  ghost predicate Linked(mem: seq<Cell>, head: Ptr, list: seq<Ptr>) {
    && Distinct(list) && head == At(list, 0)
    && (forall i :: 0 <= i < |list| ==> 0 < list[i] < |mem|)
    && (forall i {:trigger mem[list[i]]} :: 0 <= i < |list| ==>
          && mem[list[i]].prev == At(list, i - 1) && mem[list[i]].next == At(list, i + 1))
    && (forall p: Ptr :: IsLive(mem, p) && p !in list ==> mem[p].prev == NULL && mem[p].next == NULL)
  }

  /** Every reference count is the slots of live modules naming the module plus the references held elsewhere. */
  ghost predicate Counted(mem: seq<Cell>, pending: multiset<Ptr>) {
    && (forall p: Ptr :: IsLive(mem, p) ==>
          0 < p && mem[p].refcount == Slots(mem)[p] + pending[p] && mem[p].refcount >= 1)
    && (forall p: Ptr :: p != NULL && Slots(mem)[p] + pending[p] >= 1 ==> IsLive(mem, p))
  }

  /** Listed modules are live and precede their dependencies; every dependency of a live module is listed. */
  ghost predicate Ordered(mem: seq<Cell>, list: seq<Ptr>) {
    && (forall i :: 0 <= i < |list| ==> IsLive(mem, list[i]))
    && (forall p: Ptr, d: Ptr :: IsLive(mem, p) && d in mem[p].deps && d != NULL ==> d in list)
    && (forall i, j :: 0 <= i < |list| && 0 <= j < |list| && list[j] in mem[list[i]].deps ==> i < j)
  }

  ghost predicate Inv(mem: seq<Cell>, head: Ptr, list: seq<Ptr>, pending: multiset<Ptr>) {
    && |mem| > 0 && mem[0].phase == Freed
    && Linked(mem, head, list) && Counted(mem, pending) && Ordered(mem, list)
  }

  function Keep(list: seq<Ptr>, mem: seq<Cell>): (r: seq<Ptr>)
    ensures forall p :: p in r <==> p in list && IsLive(mem, p)
  {
    if list == [] then []
    else if IsLive(mem, list[0]) then [list[0]] + Keep(list[1..], mem)
    else Keep(list[1..], mem)
  }

  lemma {:induction false} KeepConcat(a: seq<Ptr>, b: seq<Ptr>, mem: seq<Cell>)
    ensures Keep(a + b, mem) == Keep(a, mem) + Keep(b, mem)
  {
    if a == [] {
      assert a + b == b;
    } else {
      assert (a + b)[1..] == a[1..] + b;
      KeepConcat(a[1..], b, mem);
    }
  }

  lemma {:induction false} KeepAll(list: seq<Ptr>, mem: seq<Cell>)
    requires forall p :: p in list ==> IsLive(mem, p)
    ensures Keep(list, mem) == list
  {
    if list != [] {
      KeepAll(list[1..], mem);
    }
  }

  lemma {:induction false} KeepKeep(list: seq<Ptr>, a: seq<Cell>, b: seq<Cell>)
    requires forall p :: IsLive(b, p) ==> IsLive(a, p)
    ensures Keep(Keep(list, a), b) == Keep(list, b)
  {
    if list != [] {
      KeepKeep(list[1..], a, b);
    }
  }

  lemma {:induction false} KeepRemoved(list: seq<Ptr>, mem: seq<Cell>, k: nat)
    requires Distinct(list) && k < |list| && !IsLive(mem, list[k])
    requires forall p :: p in list && p != list[k] ==> IsLive(mem, p)
    ensures Keep(list, mem) == list[..k] + list[k + 1..]
  {
    var a, b := list[..k], list[k + 1..];
    assert list == a + ([list[k]] + b);
    KeepConcat(a, [list[k]] + b, mem);
    KeepAll(a, mem);
    KeepAll(b, mem);
    assert ([list[k]] + b)[1..] == b;
  }

  // Reference counting on the ordered graph is reachability from the outside references: a module that is live in one
  // memory is live in every other that has the same dependencies and satisfies the invariant for the same references.

  ghost predicate SameDeps(a: seq<Cell>, b: seq<Cell>) {
    forall p :: 0 <= p < |a| && p < |b| ==> a[p].deps == b[p].deps
  }

  lemma UnlistedStaysLive(a: seq<Cell>, ha: Ptr, la: seq<Ptr>, b: seq<Cell>, hb: Ptr, lb: seq<Ptr>,
                          pending: multiset<Ptr>, q: Ptr)
    requires Inv(a, ha, la, pending) && Inv(b, hb, lb, pending)
    requires IsLive(a, q) && q !in la
    ensures IsLive(b, q)
  {
    hide Linked;
    if pending[q] == 0 {
      var n := SlotsWitness(a, q);
    }
  }

  lemma {:induction false} ListedStaysLive(a: seq<Cell>, ha: Ptr, la: seq<Ptr>, b: seq<Cell>, hb: Ptr, lb: seq<Ptr>,
                                           pending: multiset<Ptr>, i: nat)
    requires Inv(a, ha, la, pending) && Inv(b, hb, lb, pending) && SameDeps(a, b)
    requires i < |la|
    ensures IsLive(b, la[i])
    decreases i
  {
    hide Linked;
    var q := la[i];
    if pending[q] == 0 {
      var n := SlotsWitness(a, q);
      if n in la {
        var j :| 0 <= j < |la| && la[j] == n;
        ListedStaysLive(a, ha, la, b, hb, lb, pending, j);
      } else {
        UnlistedStaysLive(a, ha, la, b, hb, lb, pending, n);
      }
      SlotsCount(b, n, q);
    }
  }

  lemma LiveTransfers(a: seq<Cell>, ha: Ptr, la: seq<Ptr>, b: seq<Cell>, hb: Ptr, lb: seq<Ptr>, pending: multiset<Ptr>)
    requires Inv(a, ha, la, pending) && Inv(b, hb, lb, pending) && SameDeps(a, b)
    ensures forall q: Ptr :: IsLive(a, q) <==> IsLive(b, q)
  {
    forall q: Ptr
      ensures IsLive(a, q) ==> IsLive(b, q)
      ensures IsLive(b, q) ==> IsLive(a, q)
    {
      LiveInto(a, ha, la, b, hb, lb, pending, q);
      LiveInto(b, hb, lb, a, ha, la, pending, q);
    }
  }

  lemma LiveInto(a: seq<Cell>, ha: Ptr, la: seq<Ptr>, b: seq<Cell>, hb: Ptr, lb: seq<Ptr>, pending: multiset<Ptr>,
                 q: Ptr)
    requires Inv(a, ha, la, pending) && Inv(b, hb, lb, pending) && SameDeps(a, b)
    ensures IsLive(a, q) ==> IsLive(b, q)
  {
    if q in la {
      var i :| 0 <= i < |la| && la[i] == q;
      ListedStaysLive(a, ha, la, b, hb, lb, pending, i);
    } else if IsLive(a, q) {
      UnlistedStaysLive(a, ha, la, b, hb, lb, pending, q);
    }
  }

  /** Nothing but reference counts and links of live cells may differ, and cells may die. */
  ghost predicate Released(a: seq<Cell>, b: seq<Cell>) {
    && |a| == |b|
    && (forall p :: 0 <= p < |a| ==>
          && b[p].deps == a[p].deps && b[p].initialized == a[p].initialized
          && b[p].exe == a[p].exe && b[p].name == a[p].name
          && (a[p].phase == Live ==> b[p].phase != Dying)
          && (a[p].phase != Live ==> b[p] == a[p]))
  }

  /** Same links, dependencies and live cells. */
  ghost predicate SameShape(a: seq<Cell>, b: seq<Cell>) {
    && |a| == |b|
    && (forall p :: 0 <= p < |a| ==>
          && b[p].deps == a[p].deps && b[p].prev == a[p].prev && b[p].next == a[p].next
          && (b[p].phase == Live <==> a[p].phase == Live))
  }

  lemma ShapeKept(a: seq<Cell>, b: seq<Cell>, head: Ptr, list: seq<Ptr>)
    requires |a| > 0 && SameShape(a, b) && Linked(a, head, list) && Ordered(a, list)
    ensures Linked(b, head, list) && Ordered(b, list) && Slots(a) == Slots(b)
  {
    hide Slots;
    SlotsSame(a, b);
  }

  /** Changing one reference count along with the references held outside. */
  lemma Recount(mem: seq<Cell>, head: Ptr, list: seq<Ptr>, pending: multiset<Ptr>, p: Ptr, pending': multiset<Ptr>)
    requires Inv(mem, head, list, pending) && IsLive(mem, p)
    requires Slots(mem)[p] + pending'[p] >= 1 && forall q :: q != p ==> pending'[q] == pending[q]
    ensures Inv(mem[p := mem[p].(refcount := Slots(mem)[p] + pending'[p])], head, list, pending')
  {
    hide Slots, Linked, Ordered;
    var m := mem[p := mem[p].(refcount := Slots(mem)[p] + pending'[p])];
    ShapeKept(mem, m, head, list);
    assert Counted(m, pending');
  }

  /** Memory after the unlinking statements of the free routine. */
  function Unlink(mem: seq<Cell>, p: Ptr): (r: seq<Cell>)
    requires p < |mem| && mem[p].next < |mem| && mem[p].prev < |mem|
    ensures |r| == |mem|
  {
    var n, b := mem[p].next, mem[p].prev;
    var m := if n != NULL then mem[n := mem[n].(prev := b)] else mem;
    if b != NULL then m[b := m[b].(next := n)] else m
  }

  /** Memory once module `p` has lost its last reference, has been unlinked and no longer counts as live. */
  function Retire(mem: seq<Cell>, p: Ptr): (r: seq<Cell>)
    requires p < |mem| && mem[p].next < |mem| && mem[p].prev < |mem|
    ensures |r| == |mem|
  {
    var m := Unlink(mem, p);
    m[p := m[p].(phase := Dying, refcount := 0)]
  }

  function RetireHead(mem: seq<Cell>, head: Ptr, p: Ptr): Ptr
    requires p < |mem|
  {
    if p == head then mem[p].next else head
  }

  function Without(list: seq<Ptr>, p: Ptr): seq<Ptr> {
    if p in list then list[..Index(list, p)] + list[Index(list, p) + 1..] else list
  }

  function Index(list: seq<Ptr>, p: Ptr): (i: nat)
    requires p in list
    ensures i < |list| && list[i] == p
  {
    if list[0] == p then 0 else 1 + Index(list[1..], p)
  }

  lemma LinksInRange(mem: seq<Cell>, head: Ptr, list: seq<Ptr>, p: Ptr)
    requires |mem| > 0 && Linked(mem, head, list) && IsLive(mem, p)
    ensures mem[p].next < |mem| && mem[p].prev < |mem|
    ensures p in list ==> mem[p].next == At(list, Index(list, p) + 1) && mem[p].prev == At(list, Index(list, p) - 1)
  {
  }

  /** Field by field, what retiring changes. */
  ghost predicate Retired(mem: seq<Cell>, r: seq<Cell>, p: Ptr)
    requires p < |mem| && mem[p].next < |mem| && mem[p].prev < |mem|
  {
    && |r| == |mem|
    && (forall q :: 0 <= q < |mem| ==>
          && r[q].deps == mem[q].deps && r[q].initialized == mem[q].initialized
          && r[q].exe == mem[q].exe && r[q].name == mem[q].name
          && r[q].phase == (if q == p then Dying else mem[q].phase)
          && r[q].refcount == (if q == p then 0 else mem[q].refcount)
          && r[q].prev == (if q == mem[p].next && q != NULL then mem[p].prev else mem[q].prev)
          && r[q].next == (if q == mem[p].prev && q != NULL then mem[p].next else mem[q].next))
  }

  lemma RetireFields(mem: seq<Cell>, p: Ptr)
    requires p < |mem| && mem[p].next < |mem| && mem[p].prev < |mem|
    ensures Retired(mem, Retire(mem, p), p)
  {
  }

  lemma NeighboursLive(mem: seq<Cell>, head: Ptr, list: seq<Ptr>, p: Ptr)
    requires |mem| > 0 && Linked(mem, head, list) && Ordered(mem, list) && IsLive(mem, p)
    ensures mem[p].next != NULL ==> IsLive(mem, mem[p].next)
    ensures mem[p].prev != NULL ==> IsLive(mem, mem[p].prev)
  {
    LinksInRange(mem, head, list, p);
  }

  lemma RetireLinked(mem: seq<Cell>, head: Ptr, list: seq<Ptr>, p: Ptr)
    requires |mem| > 0 && Linked(mem, head, list) && IsLive(mem, p) && mem[p].next < |mem| && mem[p].prev < |mem|
    ensures Linked(Retire(mem, p), RetireHead(mem, head, p), Without(list, p))
  {
    hide Retire, Index, Distinct;
    LinksInRange(mem, head, list, p);
    RetireFields(mem, p);
    if p in list {
      RetireListed(mem, Retire(mem, p), head, list, p, Index(list, p));
    } else {
      assert mem[p].prev == NULL && mem[p].next == NULL;
    }
  }

  lemma RetireListed(mem: seq<Cell>, m: seq<Cell>, head: Ptr, list: seq<Ptr>, p: Ptr, k: nat)
    requires |mem| > 0 && Linked(mem, head, list) && IsLive(mem, p) && mem[p].next < |mem| && mem[p].prev < |mem|
    requires k < |list| && list[k] == p && Retired(mem, m, p)
    ensures Linked(m, RetireHead(mem, head, p), list[..k] + list[k + 1..])
  {
    var l := list[..k] + list[k + 1..];
    CutElements(list, k);
    assert mem[p].prev == At(list, k - 1) && mem[p].next == At(list, k + 1);
    assert RetireHead(mem, head, p) == At(l, 0);
    forall i | 0 <= i < |l|
      ensures 0 < l[i] < |m| && m[l[i]].prev == At(l, i - 1) && m[l[i]].next == At(l, i + 1)
    {
      RetireListedAt(mem, m, head, list, p, k, i);
    }
    RetireUnlisted(mem, m, head, list, p, k);
  }

  lemma CutElements(list: seq<Ptr>, k: nat)
    requires Distinct(list) && k < |list|
    ensures var l := list[..k] + list[k + 1..];
            Distinct(l) && forall q :: q in l <==> q in list && q != list[k]
  {
  }

  lemma RetireUnlisted(mem: seq<Cell>, m: seq<Cell>, head: Ptr, list: seq<Ptr>, p: Ptr, k: nat)
    requires |mem| > 0 && Linked(mem, head, list) && p < |mem| && mem[p].next < |mem| && mem[p].prev < |mem|
    requires k < |list| && list[k] == p && Retired(mem, m, p)
    ensures forall q: Ptr :: IsLive(m, q) && q != p && q !in list ==> m[q].prev == NULL && m[q].next == NULL
  {
  }

  lemma RetireListedAt(mem: seq<Cell>, m: seq<Cell>, head: Ptr, list: seq<Ptr>, p: Ptr, k: nat, i: nat)
    requires |mem| > 0 && Linked(mem, head, list) && p < |mem| && mem[p].next < |mem| && mem[p].prev < |mem|
    requires k < |list| && list[k] == p && Retired(mem, m, p) && i < |list| - 1
    ensures var l := list[..k] + list[k + 1..];
            0 < l[i] < |m| && m[l[i]].prev == At(l, i - 1) && m[l[i]].next == At(l, i + 1)
  {
  }

  lemma RetireHeld(mem: seq<Cell>, p: Ptr, q: Ptr)
    requires IsLive(mem, p) && mem[p].next < |mem| && mem[p].prev < |mem|
    ensures Slots(Retire(mem, p))[q] + multiset(mem[p].deps)[q] == Slots(mem)[q]
  {
    hide Slots, Retire;
    RetireFields(mem, p);
    var c := mem[p].(phase := Dying);
    SlotsUpdate(mem, p, c, q);
    SlotsSame(mem[p := c], Retire(mem, p));
  }

  lemma RetireCounted(mem: seq<Cell>, pending: multiset<Ptr>, p: Ptr)
    requires Counted(mem, pending) && IsLive(mem, p) && mem[p].next < |mem| && mem[p].prev < |mem|
    requires pending[p] >= 1 && mem[p].refcount == 1
    ensures Counted(Retire(mem, p), pending - multiset{p} + multiset(mem[p].deps))
  {
    hide Slots, Retire;
    RetireFields(mem, p);
    var m, held := Retire(mem, p), multiset(mem[p].deps);
    forall q: Ptr
      ensures Slots(m)[q] + held[q] == Slots(mem)[q]
    {
      RetireHeld(mem, p, q);
    }
    assert Slots(mem)[p] == 0;
  }

  lemma RetireOrdered(mem: seq<Cell>, list: seq<Ptr>, p: Ptr)
    requires Ordered(mem, list) && Distinct(list)
    requires IsLive(mem, p) && mem[p].next < |mem| && mem[p].prev < |mem| && Slots(mem)[p] == 0 && p != NULL
    ensures Ordered(Retire(mem, p), Without(list, p))
  {
    hide Slots, Retire, Index, Distinct;
    RetireFields(mem, p);
    var m, l := Retire(mem, p), Without(list, p);
    WithoutElements(list, p);
    forall n: Ptr, d: Ptr | IsLive(m, n) && d in m[n].deps && d != NULL
      ensures d in l
    {
      if d == p {
        SlotsCount(mem, n, p);
      }
    }
    forall i, j | 0 <= i < |l| && 0 <= j < |l| && l[j] in m[l[i]].deps
      ensures i < j
    {
      WithoutAt(list, p, i);
      WithoutAt(list, p, j);
    }
  }

  lemma WithoutElements(list: seq<Ptr>, p: Ptr)
    requires Distinct(list)
    ensures forall d :: d in Without(list, p) <==> d in list && d != p
  {
  }

  lemma WithoutAt(list: seq<Ptr>, p: Ptr, i: nat)
    requires i < |Without(list, p)|
    ensures var k := if p in list then Index(list, p) else |list|;
            var j := if i < k then i else i + 1;
            j < |list| && Without(list, p)[i] == list[j]
  {
    hide Index;
  }

  /** Retiring an unreferenced module turns its dependency slots into references still to be released. */
  lemma RetireInv(mem: seq<Cell>, head: Ptr, list: seq<Ptr>, pending: multiset<Ptr>, p: Ptr)
    requires Inv(mem, head, list, pending) && p != NULL && pending[p] >= 1 && IsLive(mem, p) && mem[p].refcount == 1
    ensures mem[p].next < |mem| && mem[p].prev < |mem|
    ensures Inv(Retire(mem, p), RetireHead(mem, head, p), Without(list, p),
                pending - multiset{p} + multiset(mem[p].deps))
    ensures Without(list, p) == Keep(list, Retire(mem, p))
  {
    hide Slots, Retire, Index, Linked, Ordered, RetireHead, Keep;
    LinksInRange(mem, head, list, p);
    RetireLinked(mem, head, list, p);
    RetireCounted(mem, pending, p);
    RetireFields(mem, p);
    ListDistinct(mem, head, list);
    RetireOrdered(mem, list, p);
    if p in list {
      KeepRemoved(list, Retire(mem, p), Index(list, p));
    } else {
      KeepAll(list, Retire(mem, p));
    }
  }

  lemma ListDistinct(mem: seq<Cell>, head: Ptr, list: seq<Ptr>)
    requires Linked(mem, head, list) && Ordered(mem, list)
    ensures Distinct(list) && forall q :: q in list ==> IsLive(mem, q)
  {
  }

  /** Giving a dying module's memory back. */
  lemma BuryInv(mem: seq<Cell>, head: Ptr, list: seq<Ptr>, pending: multiset<Ptr>, p: Ptr)
    requires Inv(mem, head, list, pending) && 0 < p < |mem| && mem[p].phase == Dying
    ensures Inv(mem[p := mem[p].(phase := Freed)], head, list, pending)
  {
    hide Slots, Linked, Ordered;
    var m := mem[p := mem[p].(phase := Freed)];
    ShapeKept(mem, m, head, list);
    assert Counted(m, pending);
  }
}
