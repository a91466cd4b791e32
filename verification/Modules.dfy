/** Loading, releasing and terminating modules. */
module Modules {
  import opened Base
  import opened ModuleGraph

  const MAX_DEPTH := 32

  /**
   * The loader's globals. `list` is the chain from `head`; `retired` are the modules in the order they stopped being
   * live, and `terminated` those whose terminator ran at that moment.
   */
  datatype State = State(mem: seq<Cell>, head: Ptr, main: Ptr, list: seq<Ptr>, retired: seq<Ptr>, terminated: seq<Ptr>)

  /** The initialized libraries of a list of modules. */
  function Libraries(ps: seq<Ptr>, mem: seq<Cell>): seq<Ptr> {
    if ps == [] then []
    else
      var p, rest := ps[|ps| - 1], Libraries(ps[..|ps| - 1], mem);
      if p < |mem| && mem[p].initialized && !mem[p].exe then rest + [p] else rest
  }

  /** Modules leave once each and before their dependencies; exactly the initialized libraries run a terminator. */
  ghost predicate InOrder(s: State) {
    && (forall p: Ptr :: p in s.retired <==> 0 < p < |s.mem| && s.mem[p].phase != Live)
    && (forall i, j :: 0 <= i < j < |s.retired| ==> s.retired[i] != s.retired[j])
    && (forall i, j :: 0 <= i <= j < |s.retired| && s.retired[j] < |s.mem| ==>
          s.retired[i] !in s.mem[s.retired[j]].deps)
    && s.terminated == Libraries(s.retired, s.mem)
  }

  /** The executable is the one live module that is not a library, and is not in the list. */
  ghost predicate OneExe(s: State) {
    && (forall p: Ptr :: IsLive(s.mem, p) && s.mem[p].exe ==> p == s.main)
    && (s.main != NULL ==> IsLive(s.mem, s.main) && s.mem[s.main].exe && s.main !in s.list)
  }

  ghost predicate Good(s: State, pending: multiset<Ptr>) {
    Inv(s.mem, s.head, s.list, pending) && InOrder(s) && OneExe(s)
  }

  /** `s` after module `p` has lost its last reference. */
  function Retiring(s: State, p: Ptr): State
    requires p < |s.mem| && s.mem[p].next < |s.mem| && s.mem[p].prev < |s.mem|
  {
    State(Retire(s.mem, p), RetireHead(s.mem, s.head, p), if s.main == p then NULL else s.main, Without(s.list, p),
          s.retired + [p], if s.mem[p].initialized && !s.mem[p].exe then s.terminated + [p] else s.terminated)
  }

  lemma {:induction false} LibrariesSame(ps: seq<Ptr>, a: seq<Cell>, b: seq<Cell>)
    requires forall p :: p in ps ==> p < |a| && p < |b| && a[p].initialized == b[p].initialized && a[p].exe == b[p].exe
    ensures Libraries(ps, a) == Libraries(ps, b)
  {
    if ps != [] {
      var front := ps[..|ps| - 1];
      assert forall p :: p in front ==> p in ps;
      LibrariesSame(front, a, b);
    }
  }

  predicate IsLibraryCell(mem: seq<Cell>, p: Ptr) {
    p < |mem| && mem[p].initialized && !mem[p].exe
  }

  lemma {:induction false} LibrariesAre(ps: seq<Ptr>, mem: seq<Cell>)
    ensures forall p :: p in Libraries(ps, mem) <==> p in ps && IsLibraryCell(mem, p)
  {
    if ps != [] {
      var front, p := ps[..|ps| - 1], ps[|ps| - 1];
      LibrariesAre(front, mem);
      assert forall q :: q in ps <==> q in front || q == p;
    }
  }

  lemma {:induction false} LibrariesOrdered(ps: seq<Ptr>, mem: seq<Cell>, i: nat, j: nat) returns (a: nat, b: nat)
    requires i < j < |ps| && IsLibraryCell(mem, ps[i]) && IsLibraryCell(mem, ps[j])
    ensures a < b < |Libraries(ps, mem)| && Libraries(ps, mem)[a] == ps[i] && Libraries(ps, mem)[b] == ps[j]
  {
    var front := ps[..|ps| - 1];
    if j < |front| {
      a, b := LibrariesOrdered(front, mem, i, j);
    } else {
      LibrariesAre(front, mem);
      assert ps[i] == front[i] && ps[i] in Libraries(front, mem);
      a :| 0 <= a < |Libraries(front, mem)| && Libraries(front, mem)[a] == ps[i];
      b := |Libraries(front, mem)|;
    }
  }

  /** Exactly the initialized libraries among the modules that have left have run a terminator, in the same order. */
  lemma TerminatorsRun(s: State, i: nat, j: nat) returns (a: nat, b: nat)
    requires InOrder(s)
    ensures forall p :: p in s.terminated <==> p in s.retired && IsLibraryCell(s.mem, p)
    ensures i < j < |s.retired| && IsLibraryCell(s.mem, s.retired[i]) && IsLibraryCell(s.mem, s.retired[j]) ==>
              a < b < |s.terminated| && s.terminated[a] == s.retired[i] && s.terminated[b] == s.retired[j]
  {
    LibrariesAre(s.retired, s.mem);
    a, b := 0, 0;
    if i < j < |s.retired| && IsLibraryCell(s.mem, s.retired[i]) && IsLibraryCell(s.mem, s.retired[j]) {
      a, b := LibrariesOrdered(s.retired, s.mem, i, j);
    }
  }

  lemma RetiringGood(s: State, pending: multiset<Ptr>, p: Ptr)
    requires Good(s, pending) && p != NULL && pending[p] >= 1 && IsLive(s.mem, p) && s.mem[p].refcount == 1
    ensures s.mem[p].next < |s.mem| && s.mem[p].prev < |s.mem|
    ensures Good(Retiring(s, p), pending - multiset{p} + multiset(s.mem[p].deps))
    ensures Retiring(s, p).list == Keep(s.list, Retire(s.mem, p))
  {
    hide Slots, Retire, Linked, RetireHead, Without, Keep, InOrder;
    if p in s.mem[p].deps {
      SlotsCount(s.mem, p, p);
    }
    RetireInv(s.mem, s.head, s.list, pending, p);
    RetireFields(s.mem, p);
    ListDistinct(s.mem, s.head, s.list);
    RetiringInOrder(s, p);
    WithoutElements(s.list, p);
  }

  lemma RetiringInOrder(s: State, p: Ptr)
    requires InOrder(s) && 0 < p && IsLive(s.mem, p) && s.mem[p].next < |s.mem| && s.mem[p].prev < |s.mem|
    requires p !in s.mem[p].deps && forall d :: d in s.mem[p].deps && d != NULL ==> IsLive(s.mem, d)
    ensures InOrder(Retiring(s, p))
  {
    hide Retire, RetireHead, Without;
    RetireFields(s.mem, p);
    var r := Retiring(s, p);
    assert r.terminated == Libraries(r.retired, r.mem) by {
      LibrariesSame(s.retired, s.mem, r.mem);
      assert r.retired[..|r.retired| - 1] == s.retired;
    }
    hide Libraries;
    forall i, j | 0 <= i <= j < |r.retired| && r.retired[j] < |r.mem|
      ensures r.retired[i] !in r.mem[r.retired[j]].deps
    {
      if i < |s.retired| {
        assert r.retired[i] in s.retired;
      }
    }
  }

  lemma BuryingGood(s: State, pending: multiset<Ptr>, p: Ptr)
    requires Good(s, pending) && 0 < p < |s.mem| && s.mem[p].phase == Dying
    ensures Good(s.(mem := s.mem[p := s.mem[p].(phase := Freed)]), pending)
  {
    hide Inv;
    BuryInv(s.mem, s.head, s.list, pending, p);
    LibrariesSame(s.retired, s.mem, s.mem[p := s.mem[p].(phase := Freed)]);
  }

  lemma RecountOrder(s: State, p: Ptr, n: nat)
    requires InOrder(s) && OneExe(s) && IsLive(s.mem, p)
    ensures var t := s.(mem := s.mem[p := s.mem[p].(refcount := n)]); InOrder(t) && OneExe(t)
  {
    LibrariesSame(s.retired, s.mem, s.mem[p := s.mem[p].(refcount := n)]);
    hide Libraries;
  }

  lemma RecountGood(s: State, pending: multiset<Ptr>, p: Ptr, pending': multiset<Ptr>)
    requires Good(s, pending) && IsLive(s.mem, p)
    requires Slots(s.mem)[p] + pending'[p] >= 1 && forall q :: q != p ==> pending'[q] == pending[q]
    ensures Good(s.(mem := s.mem[p := s.mem[p].(refcount := Slots(s.mem)[p] + pending'[p])]), pending')
  {
    hide Slots, InOrder, OneExe, Linked, Counted, Ordered;
    Recount(s.mem, s.head, s.list, pending, p, pending');
    RecountOrder(s, p, Slots(s.mem)[p] + pending'[p]);
  }

  lemma Counts(s: State, pending: multiset<Ptr>, p: Ptr)
    requires Good(s, pending) && p != NULL && pending[p] >= 1
    ensures IsLive(s.mem, p) && s.mem[p].refcount == Slots(s.mem)[p] + pending[p]
  {
    hide Linked, Ordered, Slots;
  }

  /** What releasing references may do to the loader. */
  ghost predicate Shrinks(s: State, t: State) {
    && Released(s.mem, t.mem) && t.list == Keep(s.list, t.mem)
    && s.retired <= t.retired && s.terminated <= t.terminated
    && (t.main == s.main || (t.main == NULL && !IsLive(t.mem, s.main)))
  }

  lemma ShrinksNot(s: State, pending: multiset<Ptr>, t: State)
    requires Good(s, pending) && t.list == s.list && t.main == s.main
    requires t.retired == s.retired && t.terminated == s.terminated
    requires |t.mem| == |s.mem|
    requires forall p :: 0 <= p < |s.mem| ==> t.mem[p] == s.mem[p].(refcount := t.mem[p].refcount)
    requires forall p :: 0 <= p < |s.mem| && s.mem[p].phase != Live ==> t.mem[p] == s.mem[p]
    ensures Shrinks(s, t)
  {
    hide Slots, Linked, Counted;
    KeepAll(s.list, t.mem);
  }

  lemma ShrinksTrans(s: State, t: State, u: State)
    requires Shrinks(s, t) && Shrinks(t, u)
    ensures Shrinks(s, u)
  {
    KeepKeep(s.list, t.mem, u.mem);
  }

  lemma RetiringBuried(s: State, pending: multiset<Ptr>, p: Ptr, t: State)
    requires Good(s, pending) && p != NULL && IsLive(s.mem, p) && s.mem[p].next < |s.mem| && s.mem[p].prev < |s.mem|
    requires Retiring(s, p).list == Keep(s.list, Retire(s.mem, p))
    requires Shrinks(Retiring(s, p), t) && t.mem[p].phase == Dying
    ensures Shrinks(s, t.(mem := t.mem[p := t.mem[p].(phase := Freed)]))
  {
    hide Linked, Ordered, Counted, InOrder, OneExe, Keep, Retire, Without;
    RetireFields(s.mem, p);
    NeighboursLive(s.mem, s.head, s.list, p);
    var m, r := t.mem[p := t.mem[p].(phase := Freed)], Retire(s.mem, p);
    KeepKeep(s.list, r, t.mem);
    KeepKeep(s.list, t.mem, m);
    KeepAll(Keep(s.list, t.mem), m);
  }

  lemma TakeLast(deps: seq<Ptr>, rest: multiset<Ptr>)
    requires deps != []
    ensures var d := deps[|deps| - 1];
            && (rest + multiset(deps))[d] >= 1
            && rest + multiset(deps) - multiset{d} == rest + multiset(deps[..|deps| - 1])
  {
    assert deps == deps[..|deps| - 1] + [deps[|deps| - 1]];
  }

  lemma Unlinking(mem: seq<Cell>, p: Ptr)
    requires IsLive(mem, p) && mem[p].next < |mem| && mem[p].prev < |mem|
    ensures var n, b := mem[p].next, mem[p].prev;
            var m := if n != NULL then mem[n := mem[n].(prev := b)] else mem;
            Unlink(mem, p) == if b != NULL then m[b := m[b].(next := n)] else m
  {
  }

  lemma DetachedMemory(mem: seq<Cell>, p: Ptr)
    requires IsLive(mem, p) && mem[p].next < |mem| && mem[p].prev < |mem|
    ensures var m := Unlink(mem[p := mem[p].(refcount := 0)], p);
            m[p := m[p].(phase := Dying)] == Retire(mem, p)
  {
  }

  lemma ShrinksCells(s: State, t: State)
    requires Shrinks(s, t)
    ensures |t.mem| == |s.mem| && LiveSet(t.mem) <= LiveSet(s.mem)
    ensures forall p :: 0 <= p < |s.mem| && s.mem[p].phase != Live ==> t.mem[p] == s.mem[p]
  {
  }

  lemma RetiredLess(mem: seq<Cell>, p: Ptr)
    requires IsLive(mem, p) && mem[p].next < |mem| && mem[p].prev < |mem|
    ensures LiveSet(Retire(mem, p)) == LiveSet(mem) - {p}
  {
  }

  lemma NullGood(s: State, pending: multiset<Ptr>)
    requires Good(s, pending)
    ensures Good(s, pending - multiset{NULL})
  {
    hide Slots, Linked, Ordered;
  }

  /** A load leaves earlier modules as they are but for reference counts and links, and lists new ones in front. */
  ghost predicate Grows(s: State, t: State) {
    && |s.mem| <= |t.mem|
    && (forall p :: 0 <= p < |s.mem| ==>
          && t.mem[p].deps == s.mem[p].deps && t.mem[p].initialized == s.mem[p].initialized
          && t.mem[p].exe == s.mem[p].exe && t.mem[p].name == s.mem[p].name && t.mem[p].phase == s.mem[p].phase
          && (s.mem[p].phase != Live ==> t.mem[p] == s.mem[p]))
    && (forall p :: |s.mem| <= p < |t.mem| ==> t.mem[p].phase != Dying)
    && |s.list| <= |t.list| && t.list[|t.list| - |s.list|..] == s.list
    && (forall i :: 0 <= i < |t.list| - |s.list| ==> t.list[i] >= |s.mem|)
    && s.retired <= t.retired && s.terminated <= t.terminated
  }

  /** What outlasts any number of loads and stores to slots: names, numbers of slots, and the end of the list. */
  ghost predicate Later(s: State, t: State) {
    && |s.mem| <= |t.mem|
    && (forall p :: 0 <= p < |s.mem| ==> t.mem[p].name == s.mem[p].name && |t.mem[p].deps| == |s.mem[p].deps|)
    && |s.list| <= |t.list| && t.list[|t.list| - |s.list|..] == s.list
  }

  lemma LaterTrans(s: State, t: State, u: State)
    requires Later(s, t) && Later(t, u)
    ensures Later(s, u)
  {
  }

  lemma GrowsLater(s: State, t: State)
    requires Grows(s, t)
    ensures Later(s, t)
  {
  }

  lemma LaterRefl(s: State)
    ensures Later(s, s)
  {
  }

  /** Entry `k` of the list has the name. */
  predicate NamedAt(s: State, k: nat, name: Name) {
    k < |s.list| && s.list[k] < |s.mem| && s.mem[s.list[k]].name == name
  }

  /** Some listed module has the name. */
  ghost predicate Present(s: State, name: Name) {
    exists k: nat :: NamedAt(s, k, name)
  }

  /** Module `p` is the first listed one with the name. */
  ghost predicate IsFirst(s: State, name: Name, p: Ptr) {
    exists k: nat :: NamedAt(s, k, name) && s.list[k] == p && forall j: nat :: j < k ==> !NamedAt(s, j, name)
  }

  lemma FirstAt(s: State, name: Name, k: nat)
    requires NamedAt(s, k, name) && forall j: nat :: j < k ==> !NamedAt(s, j, name)
    ensures Present(s, name) && IsFirst(s, name, s.list[k])
  {
  }

  lemma NotPresent(s: State, name: Name)
    requires forall j: nat :: j < |s.list| ==> !NamedAt(s, j, name)
    ensures !Present(s, name)
  {
  }

  /** Nothing is left of a failed load but freed records. */
  ghost predicate RolledBack(s: State, t: State) {
    && t.list == s.list && t.head == s.head && t.main == s.main && |s.mem| <= |t.mem|
    && (forall p :: 0 <= p < |s.mem| ==> t.mem[p] == s.mem[p])
    && (forall p :: |s.mem| <= p < |t.mem| ==> t.mem[p].phase == Freed)
    && s.retired <= t.retired && s.terminated <= t.terminated
  }

  lemma GrowsTrans(s: State, t: State, u: State)
    requires Grows(s, t) && Grows(t, u)
    ensures Grows(s, u)
  {
  }

  lemma RolledBackGrows(s: State, t: State)
    requires RolledBack(s, t)
    ensures Grows(s, t)
  {
  }

  /** A record just allocated: one reference, held by the loader itself, and empty dependency slots. */
  function Fresh(slots: nat, initialized: bool, exe: bool, name: Name): Cell {
    Cell(Live, 1, seq(slots, _ => NULL), NULL, NULL, initialized, exe, name)
  }

  function Allocated(s: State, c: Cell): State {
    s.(mem := s.mem + [c], main := if c.exe then |s.mem| else s.main)
  }

  lemma AllocSlots(mem: seq<Cell>, c: Cell, q: Ptr)
    requires c.phase == Live && q != NULL && forall d :: d in c.deps ==> d == NULL
    ensures Slots(mem + [c])[q] == Slots(mem)[q]
  {
    assert (mem + [c])[..|mem|] == mem;
    assert q !in c.deps;
  }

  lemma AllocShape(mem: seq<Cell>, head: Ptr, list: seq<Ptr>, c: Cell)
    requires |mem| > 0 && Linked(mem, head, list) && Ordered(mem, list)
    requires c.prev == NULL && c.next == NULL && forall d :: d in c.deps ==> d == NULL
    ensures Linked(mem + [c], head, list) && Ordered(mem + [c], list)
  {
  }

  lemma AllocCounted(mem: seq<Cell>, pending: multiset<Ptr>, c: Cell)
    requires |mem| > 0 && Counted(mem, pending)
    requires c.phase == Live && c.refcount == 1 && forall d :: d in c.deps ==> d == NULL
    ensures Counted(mem + [c], pending + multiset{|mem|})
  {
    forall q: Ptr | q != NULL
      ensures Slots(mem + [c])[q] == Slots(mem)[q]
    {
      AllocSlots(mem, c, q);
    }
    hide Slots;
    var m := mem + [c];
    assert m[|mem|] == c && !IsLive(mem, |mem|);
    assert forall p: Ptr :: IsLive(m, p) <==> p == |mem| || IsLive(mem, p);
    assert forall p: Ptr :: IsLive(mem, p) ==> m[p] == mem[p];
    assert Slots(mem)[|mem|] + pending[|mem|] == 0;
    hide IsLive;
  }

  lemma AllocGood(s: State, pending: multiset<Ptr>, c: Cell)
    requires Good(s, pending) && (c.exe ==> s.main == NULL)
    requires c == Fresh(|c.deps|, c.initialized, c.exe, c.name)
    ensures Good(Allocated(s, c), pending + multiset{|s.mem|}) && Grows(s, Allocated(s, c))
  {
    hide Slots, Linked, Ordered, Counted;
    var t := Allocated(s, c);
    AllocShape(s.mem, s.head, s.list, c);
    AllocCounted(s.mem, pending, c);
    LibrariesSame(s.retired, s.mem, t.mem);
    ListDistinct(s.mem, s.head, s.list);
  }

  function Filled(s: State, p: Ptr, i: nat, d: Ptr): State
    requires p < |s.mem| && i < |s.mem[p].deps|
  {
    s.(mem := s.mem[p := s.mem[p].(deps := s.mem[p].deps[i := d])])
  }

  lemma FillOrdered(mem: seq<Cell>, m: seq<Cell>, list: seq<Ptr>, p: Ptr, i: nat, d: Ptr)
    requires Ordered(mem, list) && IsLive(mem, p) && p !in list && i < |mem[p].deps| && d in list
    requires m == mem[p := mem[p].(deps := mem[p].deps[i := d])]
    ensures Ordered(m, list)
  {
  }

  lemma FillLinked(mem: seq<Cell>, m: seq<Cell>, head: Ptr, list: seq<Ptr>)
    requires Linked(mem, head, list) && |m| == |mem|
    requires forall q :: 0 <= q < |mem| ==>
               m[q].phase == mem[q].phase && m[q].prev == mem[q].prev && m[q].next == mem[q].next
    ensures Linked(m, head, list)
  {
  }

  lemma FillCounted(mem: seq<Cell>, pending: multiset<Ptr>, p: Ptr, i: nat, d: Ptr)
    requires Counted(mem, pending) && IsLive(mem, p)
    requires i < |mem[p].deps| && mem[p].deps[i] == NULL && d != NULL && pending[d] >= 1
    ensures Counted(mem[p := mem[p].(deps := mem[p].deps[i := d])], pending - multiset{d})
  {
    hide Slots;
    var c := mem[p].(deps := mem[p].deps[i := d]);
    var deps := mem[p].deps;
    forall q: Ptr | q != NULL
      ensures Slots(mem[p := c])[q] == Slots(mem)[q] + if q == d then 1 else 0
    {
      SlotsUpdate(mem, p, c, q);
    }
  }

  /** Storing a loaded dependency in its slot hands the reference over to the slot. */
  lemma FillGood(s: State, pending: multiset<Ptr>, p: Ptr, i: nat, d: Ptr)
    requires Good(s, pending) && IsLive(s.mem, p) && p !in s.list
    requires i < |s.mem[p].deps| && s.mem[p].deps[i] == NULL && d in s.list && d != NULL && pending[d] >= 1
    ensures Good(Filled(s, p, i, d), pending - multiset{d})
  {
    hide Slots, Linked, Ordered, Counted;
    FillOrdered(s.mem, Filled(s, p, i, d).mem, s.list, p, i, d);
    FillLinked(s.mem, Filled(s, p, i, d).mem, s.head, s.list);
    FillCounted(s.mem, pending, p, i, d);
    LibrariesSame(s.retired, s.mem, Filled(s, p, i, d).mem);
  }

  function Prepended(s: State, p: Ptr): State
    requires p < |s.mem| && s.head < |s.mem|
  {
    var m := s.mem[p := s.mem[p].(next := s.head)];
    s.(mem := if s.head != NULL then m[s.head := m[s.head].(prev := p)] else m, head := p, list := [p] + s.list)
  }

  lemma PrependLinked(s: State, p: Ptr)
    requires |s.mem| > 0 && Linked(s.mem, s.head, s.list) && 0 < p && IsLive(s.mem, p) && p !in s.list
    ensures s.head < |s.mem| && Linked(Prepended(s, p).mem, p, [p] + s.list)
  {
    var m, l := Prepended(s, p).mem, [p] + s.list;
    forall i | 0 <= i < |l|
      ensures 0 < l[i] < |m| && m[l[i]].prev == At(l, i - 1) && m[l[i]].next == At(l, i + 1)
    {
      PrependAt(s, p, i);
    }
    forall q: Ptr | IsLive(m, q) && q !in l
      ensures m[q].prev == NULL && m[q].next == NULL
    {
      PrependUnlisted(s, p, q);
    }
    PrependDistinct(s.list, p);
    hide Prepended, At;
  }

  lemma PrependAt(s: State, p: Ptr, i: nat)
    requires |s.mem| > 0 && Linked(s.mem, s.head, s.list) && 0 < p && IsLive(s.mem, p) && p !in s.list
    requires i <= |s.list|
    ensures var m, l := Prepended(s, p).mem, [p] + s.list;
            0 < l[i] < |m| && m[l[i]].prev == At(l, i - 1) && m[l[i]].next == At(l, i + 1)
  {
    var l := [p] + s.list;
    assert s.mem[p].prev == NULL;
    if i > 0 {
      assert l[i] == s.list[i - 1] && s.list[i - 1] in s.list;
    }
  }

  lemma PrependUnlisted(s: State, p: Ptr, q: Ptr)
    requires |s.mem| > 0 && Linked(s.mem, s.head, s.list) && IsLive(s.mem, p) && q !in [p] + s.list
    ensures s.head < |s.mem|
    ensures IsLive(Prepended(s, p).mem, q) ==> Prepended(s, p).mem[q].prev == NULL == Prepended(s, p).mem[q].next
  {
    assert s.list != [] ==> s.list[0] in s.list;
  }

  lemma PrependDistinct(list: seq<Ptr>, p: Ptr)
    requires Distinct(list) && p !in list
    ensures Distinct([p] + list)
  {
  }

  lemma PrependOrdered(s: State, p: Ptr)
    requires |s.mem| > 0 && s.head < |s.mem| && Ordered(s.mem, s.list) && 0 < p && IsLive(s.mem, p) && p !in s.list
    ensures Ordered(Prepended(s, p).mem, [p] + s.list)
  {
  }

  lemma PrependFields(s: State, p: Ptr)
    requires p < |s.mem| && s.head < |s.mem|
    ensures var t := Prepended(s, p);
            && |t.mem| == |s.mem| && t.head == p && t.list == [p] + s.list
            && t.main == s.main && t.retired == s.retired && t.terminated == s.terminated
            && forall q :: 0 <= q < |s.mem| ==> t.mem[q] == s.mem[q].(prev := t.mem[q].prev, next := t.mem[q].next)
  {
  }

  lemma PrependInv(s: State, pending: multiset<Ptr>, p: Ptr)
    requires Inv(s.mem, s.head, s.list, pending) && 0 < p && IsLive(s.mem, p) && p !in s.list
    ensures s.head < |s.mem|
    ensures Inv(Prepended(s, p).mem, p, [p] + s.list, pending)
  {
    hide Slots, Linked, Ordered, Prepended;
    PrependLinked(s, p);
    PrependOrdered(s, p);
    PrependFields(s, p);
    SlotsSame(s.mem, Prepended(s, p).mem);
  }

  lemma PrependGood(s: State, pending: multiset<Ptr>, p: Ptr)
    requires Good(s, pending) && 0 < p && IsLive(s.mem, p) && p !in s.list && !s.mem[p].exe
    ensures s.head < |s.mem|
    ensures Good(Prepended(s, p), pending)
  {
    hide Inv, Prepended, InOrder;
    PrependInv(s, pending, p);
    PrependFields(s, p);
    var t := Prepended(s, p);
    InOrderKept(s, t);
    assert forall d :: d in t.list <==> d == p || d in s.list;
  }

  lemma InOrderKept(s: State, t: State)
    requires InOrder(s) && t.retired == s.retired && t.terminated == s.terminated && |t.mem| == |s.mem|
    requires forall p :: 0 <= p < |s.mem| ==>
               && (t.mem[p].phase == Live <==> s.mem[p].phase == Live)
               && (s.mem[p].phase != Live ==> t.mem[p].deps == s.mem[p].deps)
               && t.mem[p].exe == s.mem[p].exe
               && (s.mem[p].phase != Live ==> t.mem[p].initialized == s.mem[p].initialized)
    ensures InOrder(t)
  {
    LibrariesSame(s.retired, s.mem, t.mem);
  }

  lemma PrependGrows(s0: State, s: State, pending: multiset<Ptr>, p: Ptr)
    requires Grows(s0, s) && Good(s, pending) && p >= |s0.mem| && 0 < p && IsLive(s.mem, p)
    requires p !in s.list && !s.mem[p].exe
    ensures s.head < |s.mem| && Grows(s0, Prepended(s, p))
  {
    hide Slots, Counted, InOrder, Linked, Ordered, OneExe;
    PrependGood(s, pending, p);
    ListAt(s, pending, 0);
    var t, k := Prepended(s, p), |s.list| - |s0.list|;
    assert t.list[k + 1..] == s.list[k..];
    forall i | 0 <= i < k + 1
      ensures t.list[i] >= |s0.mem|
    {
      if i > 0 {
        assert t.list[i] == s.list[i - 1];
      }
    }
  }

  /** What a scan of the list relies on. */
  lemma ListAt(s: State, pending: multiset<Ptr>, k: nat)
    requires Good(s, pending)
    ensures s.head == At(s.list, 0)
    ensures k < |s.list| ==> IsLive(s.mem, s.list[k]) && 0 < s.list[k] && s.mem[s.list[k]].next == At(s.list, k + 1)
  {
    hide Slots, Counted, InOrder, OneExe, Distinct;
  }

  lemma RefGood(s: State, pending: multiset<Ptr>, p: Ptr)
    requires Good(s, pending) && IsLive(s.mem, p)
    ensures var t := s.(mem := s.mem[p := s.mem[p].(refcount := s.mem[p].refcount + 1)]);
            Good(t, pending + multiset{p}) && Grows(s, t)
  {
    hide Slots, Linked, Ordered, InOrder, OneExe;
    RecountGood(s, pending, p, pending + multiset{p});
  }

  function Initialized(s: State, p: Ptr): State
    requires p < |s.mem|
  {
    s.(mem := s.mem[p := s.mem[p].(initialized := true)])
  }

  lemma InitGood(s: State, pending: multiset<Ptr>, p: Ptr)
    requires Good(s, pending) && IsLive(s.mem, p)
    ensures Good(Initialized(s, p), pending)
  {
    hide Slots, Linked, Ordered, InOrder;
    var t := Initialized(s, p);
    ShapeKept(s.mem, t.mem, s.head, s.list);
    InOrderKept(s, t);
  }

  lemma InitGrows(s0: State, s: State, p: Ptr)
    requires Grows(s0, s) && |s0.mem| <= p < |s.mem| && IsLive(s.mem, p)
    ensures Grows(s0, Initialized(s, p))
  {
  }

  /** A load in progress: its record is the only new module outside the list. */
  ghost predicate Loading(s0: State, s: State, p: Ptr) {
    && Grows(s0, s) && p >= |s0.mem| && IsLive(s.mem, p) && p !in s.list
    && !s.mem[p].initialized && (s.mem[p].exe ==> s0.main == NULL)
    && s.main == (if s.mem[p].exe then p else s0.main) && s.main != NULL
  }

  lemma LoadingMore(s0: State, s: State, p: Ptr, t: State)
    requires Loading(s0, s, p) && Grows(s, t) && t.main == s.main
    ensures Loading(s0, t, p) && t.mem[p].deps == s.mem[p].deps
  {
  }

  lemma FillLoading(s0: State, s: State, p: Ptr, i: nat, d: Ptr)
    requires Loading(s0, s, p) && i < |s.mem[p].deps|
    ensures Loading(s0, Filled(s, p, i, d), p)
  {
  }

  lemma UndoneLive(s0: State, s: State, p: Ptr, t: State, pending: multiset<Ptr>)
    requires Good(s0, pending) && Loading(s0, s, p) && Shrinks(s, t) && Good(t, pending)
    ensures forall q: Ptr :: IsLive(s0.mem, q) <==> IsLive(t.mem, q)
    ensures Slots(s0.mem) == Slots(t.mem)
  {
    hide Slots, Linked, Ordered, Counted, InOrder, OneExe, Keep;
    assert SameDeps(s0.mem, t.mem);
    LiveTransfers(s0.mem, s0.head, s0.list, t.mem, t.head, t.list, pending);
    hide Inv;
    forall q | 0 <= q < |s0.mem|
      ensures Held(s0.mem[q]) == Held(t.mem[q])
    {
      assert IsLive(s0.mem, q) <==> IsLive(t.mem, q);
    }
    forall q | |s0.mem| <= q < |t.mem|
      ensures Held(t.mem[q]) == multiset{}
    {
      assert !IsLive(s0.mem, q) && !IsLive(t.mem, q);
    }
    SlotsSame(s0.mem, t.mem);
  }

  lemma UndoneList(s0: State, s: State, p: Ptr, t: State, pending: multiset<Ptr>)
    requires Good(s0, pending) && Loading(s0, s, p) && Shrinks(s, t)
    requires forall q: Ptr :: IsLive(s0.mem, q) <==> IsLive(t.mem, q)
    ensures t.list == s0.list
  {
    hide Slots, Linked, Ordered, Counted, InOrder, OneExe, Keep, Released;
    var k := |s.list| - |s0.list|;
    var a := s.list[..k];
    assert s.list == a + s0.list;
    KeepConcat(a, s0.list, t.mem);
    ListDistinct(s0.mem, s0.head, s0.list);
    KeepAll(s0.list, t.mem);
    forall q | q in a
      ensures !IsLive(t.mem, q)
    {
      assert q >= |s0.mem|;
    }
    KeepNone(a, t.mem);
    assert [] + s0.list == s0.list;
  }

  /** Dropping the reference to a load in progress undoes everything it did. */
  lemma Undone(s0: State, s: State, p: Ptr, t: State, pending: multiset<Ptr>)
    requires Good(s0, pending) && Loading(s0, s, p) && Shrinks(s, t) && Good(t, pending)
    ensures RolledBack(s0, t)
  {
    hide Slots, Inv, InOrder, Keep;
    UndoneLive(s0, s, p, t, pending);
    UndoneList(s0, s, p, t, pending);
    CellsDetermined(s0, t, pending);
    forall q | 0 <= q < |s0.mem|
      ensures t.mem[q] == s0.mem[q]
    {
      assert IsLive(s0.mem, q) <==> IsLive(t.mem, q);
      if s0.mem[q].phase == Live {
        assert t.mem[q].refcount == s0.mem[q].refcount;
      } else {
        assert s.mem[q] == s0.mem[q];
      }
    }
    forall q | |s0.mem| <= q < |t.mem|
      ensures t.mem[q].phase == Freed
    {
      assert !IsLive(s0.mem, q) && !IsLive(t.mem, q);
    }
  }

  lemma {:induction false} KeepNone(list: seq<Ptr>, mem: seq<Cell>)
    requires forall p :: p in list ==> !IsLive(mem, p)
    ensures Keep(list, mem) == []
  {
    if list != [] {
      KeepNone(list[1..], mem);
    }
  }

  lemma CellsDetermined(s: State, t: State, pending: multiset<Ptr>)
    requires Good(s, pending) && Good(t, pending) && s.list == t.list && Slots(s.mem) == Slots(t.mem)
    requires |s.mem| <= |t.mem| && forall q: Ptr :: IsLive(s.mem, q) <==> IsLive(t.mem, q)
    ensures s.head == t.head
    ensures forall q :: 0 <= q < |s.mem| && s.mem[q].phase == Live ==>
              && t.mem[q].refcount == s.mem[q].refcount
              && t.mem[q].prev == s.mem[q].prev && t.mem[q].next == s.mem[q].next
  {
    hide Slots, Ordered, InOrder, OneExe;
    forall q | 0 <= q < |s.mem| && s.mem[q].phase == Live
      ensures t.mem[q].prev == s.mem[q].prev && t.mem[q].next == s.mem[q].next
    {
      assert IsLive(s.mem, q) && IsLive(t.mem, q);
      LinksInRange(s.mem, s.head, s.list, q);
      LinksInRange(t.mem, t.head, t.list, q);
    }
  }

  lemma RolledBackRefl(s: State)
    ensures RolledBack(s, s)
  {
  }

  lemma LoadingStarts(s0: State, pending: multiset<Ptr>, c: Cell)
    requires Good(s0, pending) && (c.exe <==> s0.main == NULL) && c == Fresh(|c.deps|, false, c.exe, c.name)
    ensures Loading(s0, Allocated(s0, c), |s0.mem|)
    ensures var m := Allocated(s0, c).mem; m[|s0.mem|] == c
  {
    hide Slots, Linked, Counted, InOrder;
    AllocGood(s0, pending, c);
    ListDistinct(s0.mem, s0.head, s0.list);
  }

  /** A native library is listed as soon as its record exists. */
  lemma NativeReady(s0: State, s: State, pending: multiset<Ptr>, c: Cell)
    requires Good(s, pending) && Grows(s0, s) && c == Fresh(0, c.initialized, false, c.name)
    ensures var t, p := Allocated(s, c), |s.mem|;
            && p > 0 && t.head < |t.mem|
            && Good(Prepended(t, p), pending + multiset{p}) && Grows(s0, Prepended(t, p)) && p in Prepended(t, p).list
            && Prepended(t, p).main == s.main
  {
    var t, p := Allocated(s, c), |s.mem|;
    assert t.mem[p] == c && p > 0;
    AllocGood(s, pending, c);
    assert p !in t.list by {
      ListDistinct(s.mem, s.head, s.list);
    }
    assert p >= |s0.mem|;
    hide Slots, Linked, Ordered, Counted, InOrder, OneExe, Grows;
    GrowsTrans(s0, s, t);
    PrependGood(t, pending + multiset{p}, p);
    PrependGrows(s0, t, pending + multiset{p}, p);
    PrependFields(t, p);
  }

  lemma LoadingFacts(s0: State, s: State, p: Ptr)
    requires Loading(s0, s, p)
    ensures Grows(s0, s) && p >= |s0.mem| && IsLive(s.mem, p) && p !in s.list && s.main != NULL
    ensures s.main == if s.mem[p].exe then p else s0.main
    ensures s.mem[p].exe ==> s0.main == NULL
  {
    hide Grows;
  }

  // Between calls: no load is in progress, so whoever holds a reference from outside holds a listed module or the
  // executable, and the executable has that one reference.

  ghost predicate Settled(s: State, handles: multiset<Ptr>) {
    && Good(s, handles)
    && (forall p :: p in handles ==> p in s.list || (p == s.main && p != NULL))
    && (s.main != NULL ==> handles[s.main] == 1)
    && (forall p :: 0 <= p < |s.mem| ==> s.mem[p].phase != Dying)
  }

  lemma UnlistedIsMain(s: State, handles: multiset<Ptr>, p: Ptr)
    requires Good(s, handles) && IsLive(s.mem, p) && p !in s.list
    ensures Slots(s.mem)[p] == 0 && handles[p] >= 1 && s.mem[p].refcount == handles[p]
  {
    hide Linked, InOrder, OneExe;
    if Slots(s.mem)[p] > 0 {
      var n := SlotsWitness(s.mem, p);
    }
  }

  /** The module at the front of the list has no dependents once everything live is listed. */
  lemma HeadUnreferenced(s: State, handles: multiset<Ptr>)
    requires Good(s, handles) && s.list != [] && Listed(s)
    ensures s.head == s.list[0] != NULL && IsLive(s.mem, s.head)
    ensures Slots(s.mem)[s.head] == 0
  {
    hide InOrder, OneExe, Counted;
    if Slots(s.mem)[s.head] > 0 {
      var n := SlotsWitness(s.mem, s.head);
    }
  }

  /** The handles left after a release; a module that died had no other. */
  lemma SettledAfter(s: State, handles: multiset<Ptr>, p: Ptr, t: State)
    requires Settled(s, handles) && handles[p] >= 1 && Shrinks(s, t) && Good(t, handles - multiset{p})
    ensures Settled(t, handles - multiset{p})
  {
    hide Slots, Linked, Ordered, InOrder, Keep;
    var h := handles - multiset{p};
    forall q | q in h
      ensures q in t.list || (q == t.main && q != NULL)
    {
      assert q in handles;
      if q in s.list {
        ListDistinct(s.mem, s.head, s.list);
        assert q != NULL && IsLive(t.mem, q);
      }
    }
    if t.main != NULL {
      assert t.main == s.main && IsLive(t.mem, t.main);
      UnlistedIsMain(t, h, t.main);
    }
  }

  /** Along any chain of dependencies from a live module every module is live. */
  lemma {:induction false} ReachableLive(s: State, pending: multiset<Ptr>, path: seq<Ptr>)
    requires Good(s, pending) && IsPath(s.mem, path) && IsLive(s.mem, path[0])
    ensures IsLive(s.mem, path[|path| - 1])
    decreases |path|
  {
    if |path| > 1 {
      hide Slots, Linked, Counted, InOrder, OneExe, Distinct;
      var n := |path| - 1;
      assert IsPath(s.mem, path[..n]);
      ReachableLive(s, pending, path[..n]);
      assert path[n] in s.mem[path[n - 1]].deps;
      ListDistinct(s.mem, s.head, s.list);
    }
  }

  /** Each module of `path` but the first fills a dependency slot of the one before. */
  predicate IsPath(mem: seq<Cell>, path: seq<Ptr>) {
    && path != []
    && (forall i :: 0 <= i < |path| ==> 0 < path[i] < |mem|)
    && (forall i :: 0 < i < |path| ==> path[i] in mem[path[i - 1]].deps)
  }

  /** A module is terminated, and leaves, strictly before everything it depends on, however indirectly. */
  lemma {:induction false} RetiredBeforeDependencies(s: State, pending: multiset<Ptr>, path: seq<Ptr>, j: nat)
    returns (i: nat)
    requires Good(s, pending) && IsPath(s.mem, path) && |path| > 1
    requires j < |s.retired| && s.retired[j] == path[|path| - 1]
    ensures i < j && s.retired[i] == path[0]
    decreases |path|
  {
    hide Slots, Linked, Counted, OneExe, Distinct;
    var n := |path| - 1;
    var d, p := path[n], path[n - 1];
    assert d in s.mem[p].deps;
    ListDistinct(s.mem, s.head, s.list);
    assert d in s.retired && !IsLive(s.mem, d) && d !in s.list;
    assert !IsLive(s.mem, p);
    hide Inv;
    forall k | j <= k < |s.retired|
      ensures s.retired[k] != p
    {
      assert s.retired[k] < |s.mem| ==> s.retired[j] !in s.mem[s.retired[k]].deps;
    }
    i :| 0 <= i < |s.retired| && s.retired[i] == p;
    if n > 1 {
      assert IsPath(s.mem, path[..n]);
      i := RetiredBeforeDependencies(s, pending, path[..n], i);
    }
  }

  lemma SettledAgain(s: State, handles: multiset<Ptr>, t: State)
    requires Settled(s, handles) && RolledBack(s, t) && Good(t, handles)
    ensures Settled(t, handles)
  {
    hide Good;
  }

  lemma SettledMore(s: State, handles: multiset<Ptr>, t: State, r: Ptr)
    requires Settled(s, handles) && Grows(s, t) && Good(t, handles + multiset{r}) && r != NULL
    requires if s.main == NULL && t.main != NULL then t.main == r && r >= |s.mem| else t.main == s.main && r in t.list
    ensures Settled(t, handles + multiset{r})
  {
    hide Slots, Linked, Ordered, InOrder;
    assert forall p :: p in s.list ==> p in t.list;
    assert r >= |s.mem| ==> handles[r] == 0;
  }

  lemma SettledGood(s: State, handles: multiset<Ptr>)
    requires Settled(s, handles)
    ensures Good(s, handles) && (s.main != NULL ==> handles[s.main] == 1)
  {
    hide Good;
  }

  lemma MainUnreferenced(s: State, handles: multiset<Ptr>)
    requires Settled(s, handles) && s.main != NULL
    ensures IsLive(s.mem, s.main) && s.mem[s.main].refcount == 1
  {
    hide Slots, Linked, Ordered, InOrder, Counted;
    UnlistedIsMain(s, handles, s.main);
  }

  lemma MainGone(s: State, t: State, pending: multiset<Ptr>)
    requires Shrinks(s, t) && Good(t, pending) && s.main < |t.mem| && t.mem[s.main].phase == Freed && s.main != NULL
    ensures t.main == NULL
  {
    hide Inv, InOrder;
  }

  lemma FewerLive(s: State, t: State, p: Ptr)
    requires IsLive(s.mem, p) && p < |t.mem| && t.mem[p].phase == Freed && LiveSet(t.mem) <= LiveSet(s.mem)
    ensures LiveSet(t.mem) < LiveSet(s.mem)
  {
    assert p in LiveSet(s.mem) && p !in LiveSet(t.mem);
  }

  ghost predicate Listed(s: State) {
    forall p: Ptr :: IsLive(s.mem, p) ==> p in s.list
  }

  lemma AllListed(s: State, handles: multiset<Ptr>)
    requires Settled(s, handles) && s.main == NULL
    ensures Listed(s)
  {
    forall p: Ptr | IsLive(s.mem, p)
      ensures p in s.list
    {
      if p !in s.list {
        UnlistedIsMain(s, handles, p);
      }
    }
  }

  lemma HeadListed(s: State, handles: multiset<Ptr>)
    requires Good(s, handles) && s.head != NULL
    ensures s.list != [] && s.head == s.list[0]
  {
    hide Slots, Counted, Ordered, InOrder, OneExe;
  }

  lemma ShrinksListed(s: State, t: State)
    requires Shrinks(s, t) && Listed(s)
    ensures Listed(t)
    ensures LiveSet(t.mem) <= LiveSet(s.mem)
    ensures s.main == NULL ==> t.main == NULL
  {
    hide Keep;
  }

  lemma ForcedSettled(s: State, h: multiset<Ptr>, p: Ptr, t: State)
    requires Settled(s, h) && Shrinks(s, t) && s.main == NULL && Good(t, h[p := 1] - multiset{p})
    ensures Settled(t, h[p := 0])
  {
    hide Slots, Linked, Ordered, InOrder, Keep, OneExe;
    assert h[p := 1] - multiset{p} == h[p := 0];
    forall q | q in h[p := 0]
      ensures q in t.list
    {
      assert q in h && q in s.list;
      ListDistinct(s.mem, s.head, s.list);
      assert q != NULL && IsLive(t.mem, q);
    }
    assert t.main == NULL;
    assert forall q :: 0 <= q < |t.mem| ==> t.mem[q].phase != Dying;
    assert Good(t, h[p := 0]);
  }

  lemma NothingLeft(s: State, handles: multiset<Ptr>)
    requires Settled(s, handles) && s.head == NULL && Listed(s)
    ensures s.list == [] && InOrder(s)
    ensures forall p :: 0 <= p < |s.mem| ==> s.mem[p].phase == Freed
    ensures forall p: Ptr :: p in s.retired <==> 0 < p < |s.mem|
  {
  }

  lemma TerminatedAll(s: State)
    requires InOrder(s) && forall p: Ptr :: p in s.retired <==> 0 < p < |s.mem|
    ensures forall p: Ptr :: p in s.terminated <==> 0 < p < |s.mem| && s.mem[p].initialized && !s.mem[p].exe
  {
    var _, _ := TerminatorsRun(s, 0, 0);
  }

  lemma NoHandles(s: State, handles: multiset<Ptr>)
    requires Settled(s, handles) && s.list == [] && s.main == NULL
    ensures handles == multiset{}
  {
    hide Good;
    assert forall p :: p !in handles;
  }

  lemma ShrinksFinal(s: State, t: State)
    requires Shrinks(s, t)
    ensures |t.mem| == |s.mem| && s.retired <= t.retired
    ensures forall p :: 0 <= p < |s.mem| ==> t.mem[p].deps == s.mem[p].deps
  {
  }

  // Module files.

  /** What a loader reads in a module file; `plausible` stands for the header checks that do not look at the flags. */
  datatype File = File(lx: bool, flags: bv32, plausible: bool, imports: seq<Name>, name: Name)

  /** A file whose header was tested, and whether there was an executable then. */
  datatype Reading = Reading(file: File, haveMain: bool)

  const NOT_LOADABLE: bv32 := 0x2000
  const DLL: bv32 := 0x8000

  function Masked(flags: bv32, mask: bv32): bv32 {
    flags & mask
  }

  function ModuleType(f: File): bv32 {
    Masked(f.flags, if f.lx then 0x38000 else 0x8000)
  }

  /** The checks made before a loader is chosen. */
  predicate Sane(f: File) {
    f.plausible && !(f.lx && Masked(f.flags, NOT_LOADABLE) != 0)
  }

  /** The tests that fail before there is a record to free. */
  predicate Rejected(f: File, haveMain: bool) {
    || (f.lx && ModuleType(f) != 0 && ModuleType(f) != DLL)
    || Masked(f.flags, NOT_LOADABLE) != 0
    || (ModuleType(f) == DLL && !haveMain)
    || (ModuleType(f) != DLL && haveMain)
  }

  /** As an import a file is accepted by four bits of its flags, or two. */
  lemma AcceptedLibrary(f: File)
    ensures !Rejected(f, true) <==> Masked(f.flags, if f.lx then 0x3A000 else 0xA000) == 0x8000
  {
    hide Masked;
    if f.lx {
      MaskedAll(f.flags);
    } else {
      MaskedBoth(f.flags);
    }
  }

  /** As the program itself when none of those bits is set. */
  lemma AcceptedProgram(f: File)
    ensures !Rejected(f, false) <==> Masked(f.flags, if f.lx then 0x3A000 else 0xA000) == 0
  {
    hide Masked;
    if f.lx {
      MaskedLx(f.flags);
    } else {
      MaskedNe(f.flags);
    }
  }

  lemma MaskedLx(x: bv32)
    ensures Masked(x, 0x3A000) == 0 <==> Masked(x, 0x38000) == 0 && Masked(x, 0x2000) == 0
  {
  }

  lemma MaskedNe(x: bv32)
    ensures Masked(x, 0xA000) == 0 <==> Masked(x, 0x8000) != 0x8000 && Masked(x, 0x2000) == 0
  {
  }

  lemma MaskedAll(x: bv32)
    ensures Masked(x, 0x3A000) == 0x8000 <==> Masked(x, 0x38000) == 0x8000 && Masked(x, 0x2000) == 0
  {
  }

  lemma MaskedBoth(x: bv32)
    ensures Masked(x, 0xA000) == 0x8000 <==> Masked(x, 0x8000) == 0x8000 && Masked(x, 0x2000) == 0
  {
  }

  predicate Accepted(read: seq<Reading>) {
    forall i :: 0 <= i < |read| ==> !Rejected(read[i].file, read[i].haveMain)
  }

  lemma AcceptedAppend(a: seq<Reading>, b: seq<Reading>)
    ensures Accepted(a + b) <==> Accepted(a) && Accepted(b)
  {
    if Accepted(a + b) {
      assert forall i :: 0 <= i < |a| ==> (a + b)[i] == a[i];
      assert forall i :: 0 <= i < |b| ==> (a + b)[|a| + i] == b[i];
    }
  }

  /** A program among the imports, and a 16-bit library marked as not loadable. */
  lemma RejectedImports(imports: seq<Name>, name: Name)
    ensures var f := File(true, 0, true, imports, name); Sane(f) && Rejected(f, true)
    ensures var f := File(false, 0xA000, true, imports, name); Sane(f) && Rejected(f, true)
  {
  }

  /** The tests before anything is allocated. */
  method TestHeader(file: File, haveMain: bool) returns (rejected: bool, isDll: bool)
    ensures rejected <==> Rejected(file, haveMain)
    ensures !rejected ==> isDll == haveMain == (ModuleType(file) == DLL)
  {
    hide Masked;
    var moduleType := Masked(file.flags, if file.lx then 0x38000 else 0x8000);
    isDll := moduleType == DLL;
    if file.lx && moduleType != 0 && moduleType != DLL {
      return true, isDll;
    } else if Masked(file.flags, NOT_LOADABLE) != 0 {
      return true, isDll;
    }
    if isDll && !haveMain {
      return true, isDll;
    } else if !isDll && haveMain {
      return true, isDll;
    }
    rejected := false;
  }

  class Loader {
    /** The contents of each library file that can be read. */
    const files: Name -> Option<File>

    // Every module record ever allocated; a freed one keeps its place so that a later use would show.
    var mem: seq<Cell>
    var loaded_modules: Ptr
    var main_module: Ptr
    ghost var list: seq<Ptr>
    ghost var retired: seq<Ptr>
    ghost var terminated: seq<Ptr>

    ghost function S(): State
      reads this
    {
      State(mem, loaded_modules, main_module, list, retired, terminated)
    }

    /** Every library file that gets as far as the header tests passes them. */
    ghost predicate LibrariesLoadable() {
      forall n :: files(n).Some? && Sane(files(n).value) ==> !Rejected(files(n).value, true)
    }

    /** From the `i`th on, the files read are libraries, read when there was an executable. */
    ghost predicate FromLibraries(read: seq<Reading>, from: nat) {
      forall i :: from <= i < |read| ==> read[i].haveMain && Sane(read[i].file) && IsLibrary(read[i].file)
    }

    ghost predicate IsLibrary(f: File) {
      exists n :: files(n) == Some(f)
    }

    lemma LibrariesAccepted(read: seq<Reading>)
      requires FromLibraries(read, 0) && LibrariesLoadable()
      ensures Accepted(read)
    {
      hide Sane, Rejected;
    }

    lemma FromAppend(a: seq<Reading>, b: seq<Reading>, from: nat)
      requires FromLibraries(a, from) && FromLibraries(b, 0) && from <= |a|
      ensures FromLibraries(a + b, from)
    {
      hide Sane, IsLibrary;
    }

    /** Drop one reference, which the caller holds in `pending`. */
    method Free(p: Ptr, ghost pending: multiset<Ptr>)
      requires Good(S(), pending) && pending[p] >= 1
      modifies `mem, `loaded_modules, `main_module, `list, `retired, `terminated
      ensures Good(S(), pending - multiset{p}) && Shrinks(old(S()), S())
      ensures p != NULL && old(mem[p].refcount) == 1 ==> p < |mem| && mem[p].phase == Freed
      decreases LiveSet(mem), 1
    {
      hide Inv, InOrder, OneExe, Slots, Shrinks;
      ghost var s0 := S();
      if p == NULL {
        NullGood(s0, pending);
        ShrinksNot(s0, pending, s0);
        return;
      }
      Counts(s0, pending, p);
      mem := mem[p := mem[p].(refcount := mem[p].refcount - 1)];
      if mem[p].refcount > 0 {
        RecountGood(s0, pending, p, pending - multiset{p});
        ShrinksNot(s0, pending, S());
        return;
      }
      RetiringGood(s0, pending, p);
      Detach(p, s0);
      ghost var s1 := S();
      RetiredLess(s0.mem, p);
      RetireFields(s0.mem, p);
      ReleaseAll(p, pending - multiset{p});
      BuryingGood(S(), pending - multiset{p}, p);
      RetiringBuried(s0, pending, p, S());
      mem := mem[p := mem[p].(phase := Freed)];
    }

    /** Drop the references held by the dependency slots of a dying module, last slot first. */
    method ReleaseAll(p: Ptr, ghost rest: multiset<Ptr>)
      requires p < |mem| && mem[p].phase == Dying && Good(S(), rest + multiset(mem[p].deps))
      modifies `mem, `loaded_modules, `main_module, `list, `retired, `terminated
      ensures Good(S(), rest) && Shrinks(old(S()), S())
      ensures p < |mem| && mem[p] == old(mem[p])
      decreases LiveSet(mem), 2
    {
      hide Good, Shrinks;
      ghost var s1, deps := S(), mem[p].deps;
      var i := |mem[p].deps|;
      assert deps[..i] == deps;
      ShrinksNot(s1, rest + multiset(deps), s1);
      while i > 0
        invariant 0 <= i <= |deps|
        invariant Good(S(), rest + multiset(deps[..i])) && Shrinks(s1, S())
        invariant p < |mem| && mem[p] == s1.mem[p] && LiveSet(mem) <= LiveSet(s1.mem)
      {
        ghost var s2 := S();
        TakeLast(deps[..i], rest);
        assert deps[..i][..i - 1] == deps[..i - 1];
        Free(mem[p].deps[i - 1], rest + multiset(deps[..i]));
        ShrinksTrans(s1, s2, S());
        ShrinksCells(s2, S());
        i := i - 1;
      }
      assert rest + multiset(deps[..0]) == rest;
    }

    /** Run the terminator, unlink the module from the list and stop counting it as live. */
    method Detach(p: Ptr, ghost s0: State)
      requires p < |s0.mem| && s0.mem[p].next < |s0.mem| && s0.mem[p].prev < |s0.mem|
      requires IsLive(s0.mem, p) && OneExe(s0) && p != NULL
      requires S() == s0.(mem := s0.mem[p := s0.mem[p].(refcount := 0)])
      modifies `mem, `loaded_modules, `main_module, `list, `retired, `terminated
      ensures S() == Retiring(s0, p)
    {
      hide Without, Unlink, Retire;
      DetachedMemory(s0.mem, p);
      ghost var m := mem;
      if mem[p].initialized && p != main_module {
        terminated := terminated + [p];
      }
      var next, prev := mem[p].next, mem[p].prev;
      if next != NULL {
        mem := mem[next := mem[next].(prev := prev)];
      }
      if prev != NULL {
        mem := mem[prev := mem[prev].(next := next)];
      }
      Unlinking(m, p);
      assert mem == Unlink(m, p);
      if p == loaded_modules {
        loaded_modules := next;
      }
      if main_module == p {
        main_module := NULL;
      }
      mem := mem[p := mem[p].(phase := Dying)];
      list, retired := Without(list, p), retired + [p];
    }

    /** The search through the list for a module of that name. */
    method FindLoaded(name: Name, ghost pending: multiset<Ptr>) returns (i: Ptr)
      requires Good(S(), pending)
      ensures i == NULL <==> !Present(S(), name)
      ensures i != NULL ==> IsLive(mem, i) && i in list && IsFirst(S(), name, i)
    {
      hide Good, Present, IsFirst;
      ListAt(S(), pending, 0);
      i := loaded_modules;
      ghost var k := 0;
      while i != NULL
        invariant 0 <= k <= |list| && i == At(list, k)
        invariant forall j: nat :: j < k ==> !NamedAt(S(), j, name)
        decreases |list| - k
      {
        ListAt(S(), pending, k);
        if mem[i].name == name {
          FirstAt(S(), name, k);
          return;
        }
        i := mem[i].next;
        k := k + 1;
      }
      ListAt(S(), pending, k);
      NotPresent(S(), name);
    }

    /**
     * Load by module name: reference a loaded module, or load the library file, or else its native replacement. `wild`
     * says that a loader freed a pointer it had not set, `read` which headers were tested.
     */
    method LoadByName(name: Name, depth: nat, ghost pending: multiset<Ptr>)
      returns (r: Ptr, wild: bool, ghost read: seq<Reading>)
      requires Good(S(), pending) && main_module != NULL && depth <= MAX_DEPTH
      modifies `mem, `loaded_modules, `main_module, `list, `retired, `terminated
      ensures wild <==> !Accepted(read)
      ensures FromLibraries(read, 0) && (read != [] ==> files(name) == Some(read[0].file))
      ensures LibrariesLoadable() ==> !wild
      ensures r == NULL && !wild ==> Good(S(), pending) && RolledBack(old(S()), S())
      ensures r != NULL ==> !wild && Good(S(), pending + multiset{r}) && Grows(old(S()), S()) && r in list
      ensures Present(old(S()), name) ==>
        && !wild && read == [] && r < old(|mem|) && IsFirst(old(S()), name, r)
        && S() == old(S()).(mem := old(mem)[r := old(mem)[r].(refcount := old(mem)[r].refcount + 1)])
      ensures r != NULL ==> Served(old(S()), S(), name, r)
      ensures !wild ==> main_module == old(main_module)
      decreases MAX_DEPTH + 1 - depth, 1
    {
      hide Good, Grows, Loading, Sane, Rejected, FromLibraries, LibrariesLoadable;
      hide Imported, Served, Present, IsFirst;
      ghost var s0 := S();
      wild, read := false, [];
      NothingRead();
      r := FindLoaded(name, pending);
      if r != NULL {
        RefGood(s0, pending, r);
        mem := mem[r := mem[r].(refcount := mem[r].refcount + 1)];
        ServedFirst(s0, S(), name, r);
        return;
      }
      var readable: bool := *;
      if readable && files(name).Some? {
        ghost var at: seq<State>;
        r, wild, read, at := LoadModule(files(name).value, depth, pending);
        OneLibrary(name, read);
        if wild {
          return;
        }
        if r != NULL {
          ServedFile(s0, S(), name, r, at, s0.list);
        }
      } else {
        RolledBackRefl(s0);
      }
      if r == NULL {
        var nativeExists: bool := *;
        if nativeExists {
          RolledBackGrows(s0, S());
          NativeReady(s0, S(), pending, Fresh(0, true, false, name));
          r := Alloc(0, true, false, name, pending);
          PrependFields(S(), r);
          Prepend(r);
          ServedNative(s0, S(), name, r);
        }
      }
    }

    /** The record of a module file, and of a native replacement. */
    predicate IsFile(c: Cell, file: File) {
      c.name == file.name && |c.deps| == |file.imports|
    }

    predicate IsNative(c: Cell, name: Name) {
      c.name == name && c.deps == []
    }

    /** `p` answers a request for `name` made in state `s`: the first listed module so named, else a new one. */
    ghost predicate Served(s: State, t: State, name: Name, p: Ptr) {
      && (Present(s, name) ==> IsFirst(s, name, p))
      && (!Present(s, name) ==>
            && |s.mem| <= p < |t.mem| && p in t.list
            && (IsNative(t.mem[p], name) || (files(name).Some? && IsFile(t.mem[p], files(name).value))))
    }

    lemma ServedNative(s: State, t: State, name: Name, p: Ptr)
      requires !Present(s, name) && |s.mem| <= p < |t.mem| && p in t.list && IsNative(t.mem[p], name)
      ensures Served(s, t, name, p)
    {
      hide Present;
    }

    lemma ServedFile(s: State, t: State, name: Name, p: Ptr, at: seq<State>, list0: seq<Ptr>)
      requires !Present(s, name) && |s.mem| <= p < |t.mem| && p in t.list && files(name).Some?
      requires Imported(at, t, p, files(name).value, list0)
      ensures Served(s, t, name, p)
    {
      hide Present;
    }

    lemma ServedFirst(s: State, t: State, name: Name, p: Ptr)
      requires Present(s, name) && IsFirst(s, name, p)
      ensures Served(s, t, name, p)
    {
    }

    lemma ServedLater(s: State, t: State, u: State, name: Name, p: Ptr)
      requires Served(s, t, name, p) && Later(t, u)
      ensures Served(s, u, name, p)
    {
      hide Present, IsFirst;
      assert forall q :: q in t.list ==> q in u.list;
      if !Present(s, name) && t.mem[p].deps == [] {
        assert u.mem[p].deps == [];
      }
    }

    /**
     * The imports of `file` served so far, for the record `p`: `at` are the states in which they were requested, the
     * first with the list `list0` and each later than the one before.
     */
    ghost predicate Trail(at: seq<State>, t: State, p: Ptr, file: File, list0: seq<Ptr>) {
      && p < |t.mem| && IsFile(t.mem[p], file) && |at| <= |file.imports|
      && (if at == [] then t.list == list0 else at[0].list == list0)
      && (forall j :: 0 <= j < |at| ==> Later(at[j], t))
      && (forall j :: 0 <= j < |at| ==> Served(at[j], t, file.imports[j], t.mem[p].deps[j]))
      && (forall j :: 0 < j < |at| ==> Later(at[j - 1], at[j]))
    }

    lemma TrailKept(at: seq<State>, t: State, u: State, p: Ptr, file: File, list0: seq<Ptr>)
      requires Trail(at, t, p, file, list0) && Later(t, u) && at != []
      requires u.mem[p].deps == t.mem[p].deps
      ensures Trail(at, u, p, file, list0)
    {
      hide Later, Served;
      LaterCells(t, u);
      forall j | 0 <= j < |at|
        ensures Later(at[j], u) && Served(at[j], u, file.imports[j], u.mem[p].deps[j])
      {
        LaterTrans(at[j], t, u);
        ServedLater(at[j], t, u, file.imports[j], t.mem[p].deps[j]);
      }
    }

    lemma LaterCells(t: State, u: State)
      requires Later(t, u)
      ensures |t.mem| <= |u.mem| && forall p :: 0 <= p < |t.mem| ==> u.mem[p].name == t.mem[p].name
    {
    }

    lemma TrailStepAt(at: seq<State>, s: State, t: State, p: Ptr, file: File, list0: seq<Ptr>, d: Ptr, j: nat)
      requires Trail(at, s, p, file, list0) && |at| < |file.imports| && Later(s, t) && j <= |at|
      requires p < |t.mem| && t.mem[p].deps == s.mem[p].deps && Served(s, t, file.imports[|at|], d)
      ensures Later(if j < |at| then at[j] else s, Filled(t, p, |at|, d))
      ensures Served(if j < |at| then at[j] else s, Filled(t, p, |at|, d), file.imports[j],
                     if j < |at| then s.mem[p].deps[j] else d)
    {
      hide Later, Served, Filled;
      var u := Filled(t, p, |at|, d);
      FilledLater(t, p, |at|, d);
      LaterTrans(s, t, u);
      if j < |at| {
        LaterTrans(at[j], s, u);
        ServedLater(at[j], s, u, file.imports[j], s.mem[p].deps[j]);
      } else {
        ServedLater(s, t, u, file.imports[j], d);
      }
    }

    lemma TrailStepShape(at: seq<State>, s: State, t: State, p: Ptr, file: File, list0: seq<Ptr>, d: Ptr)
      requires Trail(at, s, p, file, list0) && |at| < |file.imports| && Later(s, t)
      requires p < |t.mem| && t.mem[p].deps == s.mem[p].deps
      ensures var u, more := Filled(t, p, |at|, d), at + [s];
              && p < |u.mem| && IsFile(u.mem[p], file) && |u.mem[p].deps| == |file.imports|
              && (forall j :: 0 <= j < |more| ==> u.mem[p].deps[j] == if j < |at| then s.mem[p].deps[j] else d)
              && more[0].list == list0 && (forall j :: 0 < j < |more| ==> Later(more[j - 1], more[j]))
    {
      LaterCells(s, t);
      hide Later, Served;
    }

    /** One more import, requested in state `s` and served in `t`, is stored in its slot. */
    lemma TrailStep(at: seq<State>, s: State, t: State, p: Ptr, file: File, list0: seq<Ptr>, d: Ptr)
      requires Trail(at, s, p, file, list0) && |at| < |file.imports| && Grows(s, t)
      requires p < |t.mem| && t.mem[p].deps == s.mem[p].deps && Served(s, t, file.imports[|at|], d)
      ensures Trail(at + [s], Filled(t, p, |at|, d), p, file, list0)
    {
      GrowsLater(s, t);
      TrailStepShape(at, s, t, p, file, list0, d);
      hide Later, Served, Grows, Filled;
      var u, more := Filled(t, p, |at|, d), at + [s];
      forall j | 0 <= j < |more|
        ensures Later(more[j], u) && Served(more[j], u, file.imports[j], u.mem[p].deps[j])
      {
        TrailStepAt(at, s, t, p, file, list0, d, j);
      }
    }

    lemma FilledLater(t: State, p: Ptr, i: nat, d: Ptr)
      requires p < |t.mem| && i < |t.mem[p].deps|
      ensures Later(t, Filled(t, p, i, d))
    {
    }

    /** Making the record ready, and listing it, keeps the trail. */
    lemma TrailReady(at: seq<State>, t: State, p: Ptr, file: File, list0: seq<Ptr>)
      requires Trail(at, t, p, file, list0)
      ensures Trail(at, Initialized(t, p), p, file, list0)
      ensures t.head < |t.mem| && at != [] ==> Trail(at, Prepended(Initialized(t, p), p), p, file, list0)
    {
      var u := Initialized(t, p);
      assert Later(t, u);
      if at != [] {
        TrailKept(at, t, u, p, file, list0);
        if u.head < |u.mem| {
          PrependFields(u, p);
          PrependedLater(u, p);
          hide Later, Prepended;
          TrailKept(at, u, Prepended(u, p), p, file, list0);
        }
      }
    }

    lemma PrependedLater(t: State, p: Ptr)
      requires p < |t.mem| && t.head < |t.mem|
      ensures Later(t, Prepended(t, p))
    {
      PrependFields(t, p);
      hide Prepended;
      assert ([p] + t.list)[1..] == t.list;
    }

    /** Every slot of the finished record holds the module that its import was served with. */
    ghost predicate Imported(at: seq<State>, t: State, p: Ptr, file: File, list0: seq<Ptr>) {
      && p < |t.mem| && IsFile(t.mem[p], file) && |at| == |file.imports| && (at != [] ==> at[0].list == list0)
      && (forall j :: 0 <= j < |at| ==>
            Later(at[j], t) && Served(at[j], t, file.imports[j], t.mem[p].deps[j]))
      && (forall j :: 0 < j < |at| ==> Later(at[j - 1], at[j]))
    }

    lemma TrailDone(at: seq<State>, t: State, p: Ptr, file: File, list0: seq<Ptr>)
      requires Trail(at, t, p, file, list0) && |at| == |file.imports|
      ensures Imported(at, Initialized(t, p), p, file, list0)
      ensures t.head < |t.mem| ==> Imported(at, Prepended(Initialized(t, p), p), p, file, list0)
    {
      TrailReady(at, t, p, file, list0);
      if t.head < |t.mem| {
        PrependFields(Initialized(t, p), p);
      }
      hide Later, Served, Prepended;
    }

    lemma NothingRead()
      ensures FromLibraries([], 0) && Accepted([])
    {
    }

    lemma OneLibrary(name: Name, read: seq<Reading>)
      requires FromLibraries(read, 1)
      requires read != [] ==> Some(read[0].file) == files(name) && read[0].haveMain && Sane(read[0].file)
      ensures FromLibraries(read, 0) && (LibrariesLoadable() ==> Accepted(read))
    {
      assert read != [] ==> files(name) == Some(read[0].file) && IsLibrary(read[0].file);
      hide Sane, Rejected, IsLibrary;
    }

    /** A new module record. */
    method Alloc(slots: nat, initialized: bool, exe: bool, name: Name, ghost pending: multiset<Ptr>) returns (p: Ptr)
      requires Good(S(), pending) && (exe ==> main_module == NULL)
      modifies `mem, `main_module
      ensures p == old(|mem|) > 0 && S() == Allocated(old(S()), Fresh(slots, initialized, exe, name))
      ensures Good(S(), pending + multiset{p})
    {
      p := |mem|;
      AllocGood(S(), pending, Fresh(slots, initialized, exe, name));
      mem := mem + [Fresh(slots, initialized, exe, name)];
      if exe {
        main_module := p;
      }
    }

    /** Put a module that is ready to use at the front of the list. */
    method Prepend(p: Ptr)
      requires p < |mem| && loaded_modules < |mem|
      modifies `mem, `loaded_modules, `list
      ensures S() == Prepended(old(S()), p)
    {
      mem := mem[p := mem[p].(next := loaded_modules)];
      if loaded_modules != NULL {
        mem := mem[loaded_modules := mem[loaded_modules].(prev := p)];
      }
      loaded_modules := p;
      list := [p] + list;
    }

    /**
     * Load a module file: test its header, allocate its record, load its imports in order, then make it ready or undo
     * everything. A rejected header goes to the failure exit with no record set, and wild.
     */
    method LoadModule(file: File, depth: nat, ghost pending: multiset<Ptr>)
      returns (r: Ptr, wild: bool, ghost read: seq<Reading>, ghost at: seq<State>)
      requires Good(S(), pending) && depth <= MAX_DEPTH
      modifies `mem, `loaded_modules, `main_module, `list, `retired, `terminated
      ensures wild <==> !Accepted(read)
      ensures read != [] <==> Sane(file)
      ensures read != [] ==> read[0] == Reading(file, old(main_module) != NULL)
      ensures FromLibraries(read, 1)
      ensures LibrariesLoadable() ==> (wild <==> Sane(file) && Rejected(file, old(main_module) != NULL))
      ensures r == NULL && !wild ==> Good(S(), pending) && RolledBack(old(S()), S())
      ensures r != NULL ==> !wild && Good(S(), pending + multiset{r}) && Grows(old(S()), S())
      ensures r != NULL ==> old(|mem|) <= r < |mem| && mem[r].initialized
      ensures r != NULL ==> Imported(at, S(), r, file, old(list)) && mem[r].exe == (ModuleType(file) != DLL)
      ensures r != NULL && old(main_module) == NULL ==> main_module == r
      ensures r != NULL && old(main_module) != NULL ==> main_module == old(main_module) && r in list
      decreases MAX_DEPTH + 1 - depth, 0
    {
      hide Good, Grows, Loading, RolledBack, Sane, Rejected, ModuleType, FromLibraries, LibrariesLoadable, Accepted;
      hide Trail, Imported, Served, Present, IsFirst;
      ghost var s0 := S();
      RolledBackRefl(s0);
      r, wild, read, at := NULL, false, [], [];
      NoneBehind(file, main_module != NULL);
      if !Sane(file) {
        return;
      }
      read := [Reading(file, main_module != NULL)];
      var rejected, isDll := TestHeader(file, main_module != NULL);
      if rejected {
        return NULL, true, read, [];
      }
      var malloc: bool := *;
      if !malloc {
        return;
      }
      var imports, name := file.imports, file.name;
      var p := Alloc(|imports|, false, !isDll, name, pending);
      LoadingStarts(s0, pending, Fresh(|imports|, false, !isDll, name));
      if depth + 1 > MAX_DEPTH {
        FailLoad(p, pending, s0);
        return;
      }
      var mapped: bool := *;
      if !mapped {
        FailLoad(p, pending, s0);
        return;
      }
      TrailStarts(S(), p, file);
      for i := 0 to |imports|
        invariant Trail(at, S(), p, file, s0.list) && |at| == i
        invariant Good(S(), pending + multiset{p}) && Loading(s0, S(), p)
        invariant p < |mem| && |mem[p].deps| == |imports| && mem[p].exe == !isDll
        invariant forall j :: i <= j < |imports| ==> mem[p].deps[j] == NULL
        invariant read != [] && read[0] == Reading(file, s0.main != NULL)
        invariant FromLibraries(read, 1) && Accepted(read)
      {
        ghost var more: seq<Reading>;
        var ok: bool;
        ok, wild, more, at := LoadImport(p, i, file, depth, pending, s0, at);
        AcceptedAppend(read, more);
        FromAppend(read, more, 1);
        LibrariesOnly(more);
        read := read + more;
        if wild {
          return;
        }
        if !ok {
          FailLoad(p, pending, s0);
          return;
        }
      }
      LoadingFacts(s0, S(), p);
      var ready: bool := *;
      if !ready {
        FailLoad(p, pending, s0);
        return;
      }
      Finish(p, isDll, pending + multiset{p}, s0, at, file);
      return p, false, read, at;
    }

    /** Import `i` of a module in progress, and its slot. */
    method LoadImport(p: Ptr, i: nat, file: File, depth: nat, ghost pending: multiset<Ptr>, ghost s0: State,
                      ghost at: seq<State>)
      returns (ok: bool, wild: bool, ghost read: seq<Reading>, ghost at': seq<State>)
      requires Good(S(), pending + multiset{p}) && Loading(s0, S(), p) && depth < MAX_DEPTH
      requires p < |mem| && |mem[p].deps| == |file.imports| && i < |file.imports|
      requires forall j :: i <= j < |file.imports| ==> mem[p].deps[j] == NULL
      requires Trail(at, S(), p, file, s0.list) && |at| == i
      modifies `mem, `loaded_modules, `main_module, `list, `retired, `terminated
      ensures wild <==> !Accepted(read)
      ensures FromLibraries(read, 0)
      ensures !wild ==> Good(S(), pending + multiset{p}) && Loading(s0, S(), p)
      ensures !wild ==> p < |mem| && |mem[p].deps| == |file.imports| && mem[p].exe == old(mem[p].exe)
      ensures ok ==> !wild && Trail(at', S(), p, file, s0.list) && |at'| == i + 1
      ensures ok ==> forall j :: i < j < |file.imports| ==> mem[p].deps[j] == NULL
      decreases MAX_DEPTH - depth, 2
    {
      hide Good, Grows, Loading, RolledBack, Sane, Rejected, FromLibraries, LibrariesLoadable, Accepted;
      hide Trail, Served, Present, IsFirst;
      ghost var s1 := S();
      LoadingFacts(s0, s1, p);
      ok, at' := false, at;
      var d: Ptr;
      d, wild, read := LoadByName(file.imports[i], depth + 1, pending + multiset{p});
      if wild {
        return;
      }
      if d == NULL {
        RolledBackGrows(s1, S());
      }
      LoadingMore(s0, s1, p, S());
      LoadingFacts(s0, S(), p);
      ExeKept(s1, S(), p);
      if d == NULL {
        return;
      }
      TrailStep(at, s1, S(), p, file, s0.list, d);
      at' := at + [s1];
      FillGood(S(), pending + multiset{p} + multiset{d}, p, i, d);
      FillLoading(s0, S(), p, i, d);
      assert pending + multiset{p} + multiset{d} - multiset{d} == pending + multiset{p};
      mem := mem[p := mem[p].(deps := mem[p].deps[i := d])];
      ok := true;
    }

    lemma ExeKept(s: State, t: State, p: Ptr)
      requires Grows(s, t) && p < |s.mem|
      ensures p < |t.mem| && t.mem[p].exe == s.mem[p].exe
    {
    }

    /** A record whose imports are loaded becomes ready, and a library goes to the front of the list. */
    method Finish(p: Ptr, isDll: bool, ghost pending: multiset<Ptr>, ghost s0: State, ghost at: seq<State>,
                  ghost file: File)
      requires Good(S(), pending) && Grows(s0, S()) && |s0.mem| <= p < |mem| && IsLive(mem, p) && p !in list
      requires mem[p].exe == !isDll && p != NULL
      requires Trail(at, S(), p, file, s0.list) && |at| == |file.imports|
      modifies `mem, `loaded_modules, `list
      ensures Good(S(), pending) && Grows(s0, S()) && Imported(at, S(), p, file, s0.list)
      ensures p < |mem| && mem[p].initialized && mem[p].exe == !isDll && (isDll ==> p in list)
    {
      hide Good, Grows, Trail, Imported, Prepended;
      TrailDone(at, S(), p, file, s0.list);
      InitGood(S(), pending, p);
      InitGrows(s0, S(), p);
      mem := mem[p := mem[p].(initialized := true)];
      if isDll {
        PrependGood(S(), pending, p);
        PrependGrows(s0, S(), pending, p);
        PrependFields(S(), p);
        Prepend(p);
      }
    }

    lemma TrailStarts(t: State, p: Ptr, file: File)
      requires p < |t.mem| && IsFile(t.mem[p], file)
      ensures Trail([], t, p, file, t.list)
    {
    }

    lemma NoneBehind(file: File, haveMain: bool)
      ensures FromLibraries([], 1) && FromLibraries([Reading(file, haveMain)], 1)
      ensures Accepted([]) && (Accepted([Reading(file, haveMain)]) <==> !Rejected(file, haveMain))
    {
      hide Rejected;
      assert [Reading(file, haveMain)][0].file == file;
    }

    lemma LibrariesOnly(read: seq<Reading>)
      requires FromLibraries(read, 0)
      ensures LibrariesLoadable() ==> Accepted(read)
    {
      if LibrariesLoadable() {
        LibrariesAccepted(read);
      }
    }

    /** The common failure exit. */
    method FailLoad(p: Ptr, ghost pending: multiset<Ptr>, ghost s0: State)
      requires Good(s0, pending) && Good(S(), pending + multiset{p}) && Loading(s0, S(), p)
      modifies `mem, `loaded_modules, `main_module, `list, `retired, `terminated
      ensures Good(S(), pending) && RolledBack(s0, S())
    {
      hide Good, Loading, Shrinks, RolledBack;
      ghost var s := S();
      Free(p, pending + multiset{p});
      assert pending + multiset{p} - multiset{p} == pending;
      Undone(s0, s, p, S(), pending);
    }

    // The calls other code makes, with the references it holds.

    ghost var handles: multiset<Ptr>

    constructor (files: Name -> Option<File>)
      ensures Settled(S(), handles) && handles == multiset{} && list == [] && main_module == NULL
      ensures this.files == files
    {
      this.files := files;
      mem := [Cell(Freed, 0, [], NULL, NULL, false, false, 0)];
      loaded_modules, main_module := NULL, NULL;
      list, retired, terminated, handles := [], [], [], multiset{};
      new;
      assert Slots(mem) == multiset{} by {
        assert mem[..0] == [];
      }
    }

    /** loadModuleByPath at the top level, on a file's contents, or none if it cannot be read. */
    method LoadByPath(file: Option<File>)
      returns (r: Ptr, wild: bool, ghost read: seq<Reading>, ghost at: seq<State>)
      requires Settled(S(), handles)
      modifies this
      ensures wild <==> !Accepted(read)
      ensures read != [] <==> file.Some? && Sane(file.value)
      ensures read != [] ==> read[0] == Reading(file.value, old(main_module) != NULL)
      ensures FromLibraries(read, 1)
      ensures LibrariesLoadable() ==>
                (wild <==> file.Some? && Sane(file.value) && Rejected(file.value, old(main_module) != NULL))
      ensures !wild ==> Settled(S(), handles)
      ensures r == NULL && !wild ==> RolledBack(old(S()), S()) && handles == old(handles)
      ensures r != NULL ==> !wild && Grows(old(S()), S()) && handles == old(handles) + multiset{r}
      ensures r != NULL ==> file.Some? && r >= old(|mem|) && Imported(at, S(), r, file.value, old(list))
    {
      hide Good, Grows, RolledBack, Sane, Rejected, FromLibraries, LibrariesLoadable;
      hide Imported, Served, Present, IsFirst;
      ghost var s := S();
      if file == None {
        NoneBehind(File(true, 0, false, [], 0), false);
        RolledBackRefl(s);
        return NULL, false, [], [];
      }
      r, wild, read, at := LoadModule(file.value, 0, handles);
      if wild {
        return;
      }
      if r == NULL {
        SettledAgain(s, handles, S());
      } else {
        SettledMore(s, handles, S(), r);
        handles := handles + multiset{r};
      }
    }

    /** loadModuleByModuleName. */
    method LoadLibrary(name: Name) returns (r: Ptr, wild: bool, ghost read: seq<Reading>)
      requires Settled(S(), handles) && main_module != NULL
      modifies this
      ensures wild <==> !Accepted(read)
      ensures FromLibraries(read, 0) && (read != [] ==> files(name) == Some(read[0].file))
      ensures LibrariesLoadable() ==> !wild
      ensures !wild ==> Settled(S(), handles)
      ensures r == NULL && !wild ==> RolledBack(old(S()), S()) && handles == old(handles)
      ensures r != NULL ==> !wild && Grows(old(S()), S()) && handles == old(handles) + multiset{r} && r in list
      ensures Present(old(S()), name) ==>
        && !wild && read == [] && r < old(|mem|) && IsFirst(old(S()), name, r)
        && S() == old(S()).(mem := old(mem)[r := old(mem)[r].(refcount := old(mem)[r].refcount + 1)])
      ensures r != NULL ==> Served(old(S()), S(), name, r)
    {
      hide Good, Grows, RolledBack, Sane, Rejected, FromLibraries, LibrariesLoadable;
      hide Imported, Served, Present, IsFirst;
      ghost var s := S();
      r, wild, read := LoadByName(name, 0, handles);
      if wild {
        return;
      }
      if r == NULL {
        SettledAgain(s, handles, S());
      } else {
        SettledMore(s, handles, S(), r);
        handles := handles + multiset{r};
      }
    }

    /** freeLxModule on a reference held outside. */
    method Release(p: Ptr)
      requires Settled(S(), handles) && handles[p] >= 1
      modifies this
      ensures Settled(S(), handles) && handles == old(handles) - multiset{p} && Shrinks(old(S()), S())
    {
      ghost var s := S();
      Free(p, handles);
      SettledAfter(s, handles, p, S());
      handles := handles - multiset{p};
    }

    /** One round of the termination loop: the front module is freed whoever still holds a reference to it. */
    method ForceHead(ghost h: multiset<Ptr>) returns (ghost h': multiset<Ptr>)
      requires Settled(S(), h) && Listed(S()) && main_module == NULL && loaded_modules != NULL
      modifies `mem, `loaded_modules, `main_module, `list, `retired, `terminated
      ensures Settled(S(), h') && Listed(S()) && main_module == NULL && Shrinks(old(S()), S())
      ensures LiveSet(mem) < LiveSet(old(mem))
    {
      hide Good, Shrinks, Listed, Keep;
      ghost var s := S();
      var lxmod := loaded_modules;
      HeadListed(s, h);
      HeadUnreferenced(s, h);
      RecountGood(s, h, lxmod, h[lxmod := 1]);
      mem := mem[lxmod := mem[lxmod].(refcount := 1)];
      ghost var s1 := S();
      ShrinksNot(s, h, s1);
      Free(lxmod, h[lxmod := 1]);
      ShrinksTrans(s, s1, S());
      ShrinksListed(s, S());
      FewerLive(s, S(), lxmod);
      ForcedSettled(s, h, lxmod, S());
      h' := h[lxmod := 0];
    }

    /** lxTerminate: free the executable, then force out whatever is left, from the front of the list. */
    method Terminate()
      requires Settled(S(), handles)
      modifies this
      ensures loaded_modules == NULL && main_module == NULL
      ensures |mem| == old(|mem|) && forall p :: 0 <= p < |mem| ==> mem[p].phase == Freed
      ensures old(retired) <= retired && forall p: Ptr :: p in retired <==> 0 < p < |mem|
      ensures InOrder(S()) && Settled(S(), handles) && handles == multiset{}
      ensures forall p: Ptr :: p in terminated <==> 0 < p < |mem| && mem[p].initialized && !mem[p].exe
      ensures forall p :: 0 <= p < |mem| ==> mem[p].deps == old(mem)[p].deps
    {
      hide Good, Shrinks, Listed, Keep, Settled, InOrder;
      ghost var s0 := S();
      SettledGood(s0, handles);
      ghost var h := handles;
      if main_module != NULL {
        MainUnreferenced(s0, h);
        Free(main_module, h);
        MainGone(s0, S(), h - multiset{s0.main});
        SettledAfter(s0, h, s0.main, S());
        h := h - multiset{s0.main};
      } else {
        ShrinksNot(s0, h, s0);
      }
      AllListed(S(), h);
      while loaded_modules != NULL
        invariant Settled(S(), h) && Shrinks(s0, S()) && main_module == NULL && Listed(S())
        decreases LiveSet(mem)
      {
        ghost var s := S();
        h := ForceHead(h);
        ShrinksTrans(s0, s, S());
      }
      NothingLeft(S(), h);
      NoHandles(S(), h);
      TerminatedAll(S());
      handles := h;
      ShrinksFinal(s0, S());
    }
  }
}
