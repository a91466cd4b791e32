/** Creating and destroying windows: the child lists of the anchor block's window structures. */
module Windows {
  import opened WindowTree

  /**
   * From one tree to another: the subtree of `x` is cleared, and every other window keeps its handle, its parent and
   * its children in order, except that the parent of `x` loses `x`.
   */
  ghost predicate Cut(w: seq<Window>, kids: seq<seq<nat>>, depth: seq<nat>, x: nat, w': seq<Window>,
                      kids': seq<seq<nat>>)
    requires |w| == |kids| == |depth| && x < |w|
  {
    && |w'| == |kids'| == |w|
    && forall i :: 0 <= i < |w| ==> CutAt(w, kids, depth, x, w', kids', i)
  }

  predicate CutAt(w: seq<Window>, kids: seq<seq<nat>>, depth: seq<nat>, x: nat, w': seq<Window>, kids': seq<seq<nat>>,
                  i: nat)
    requires |w| == |kids| == |depth| == |w'| == |kids'| && i < |w| && x < |w|
  {
    if Under(w, depth, i, x) then w'[i] == CLEARED && kids'[i] == []
    else w'[i].hwnd == w[i].hwnd && w'[i].parent == w[i].parent
         && kids'[i] == if i == w[x].parent then Without(kids[i], x) else kids[i]
  }

  // The loop over the children of `x`, after the first `k` of them are gone.

  ghost predicate Doomed(w: seq<Window>, kids: seq<seq<nat>>, depth: seq<nat>, x: nat, k: nat, i: nat)
    requires |w| == |kids| == |depth| && x < |w| && i < |w| && k <= |kids[x]|
  {
    exists m :: 0 <= m < k && Under(w, depth, i, kids[x][m])
  }

  ghost predicate Partly(w: seq<Window>, kids: seq<seq<nat>>, depth: seq<nat>, x: nat, k: nat, w': seq<Window>,
                         kids': seq<seq<nat>>)
    requires |w| == |kids| == |depth| && x < |w| && k <= |kids[x]|
  {
    && |w'| == |kids'| == |w|
    && forall i :: 0 <= i < |w| ==> PartlyAt(w, kids, depth, x, k, w', kids', i)
  }

  ghost predicate PartlyAt(w: seq<Window>, kids: seq<seq<nat>>, depth: seq<nat>, x: nat, k: nat, w': seq<Window>,
                           kids': seq<seq<nat>>, i: nat)
    requires |w| == |kids| == |depth| == |w'| == |kids'| && x < |w| && k <= |kids[x]| && i < |w|
  {
    if Doomed(w, kids, depth, x, k, i) then w'[i] == CLEARED && kids'[i] == []
    else w'[i].hwnd == w[i].hwnd && w'[i].parent == w[i].parent && kids'[i] == if i == x then kids[x][k..] else kids[i]
  }

  /** Destroying earlier siblings does not change which windows lie under child `k`. */
  lemma {:induction false} UnderKept(w: seq<Window>, kids: seq<seq<nat>>, depth: seq<nat>, x: nat, k: nat,
                                     w': seq<Window>, kids': seq<seq<nat>>, i: nat)
    requires Tree(w, kids, depth) && Live(w, x) && k < |kids[x]|
    requires Partly(w, kids, depth, x, k, w', kids') && i < |w|
    ensures Under(w', depth, i, kids[x][k]) <==> Under(w, depth, i, kids[x][k])
    decreases depth[i]
  {
    var c := kids[x][k];
    ChildFacts(w, kids, depth, x, k);
    assert PartlyAt(w, kids, depth, x, k, w', kids', i);
    if i == c {
    } else if Doomed(w, kids, depth, x, k, i) {
      DoomedApart(w, kids, depth, x, k, i);
    } else if i > 0 && Live(w, i) {
      var _ := ParentFacts(w, kids, depth, i);
      var q := w[i].parent;
      assert PartlyAt(w, kids, depth, x, k, w', kids', q);
      assert !Doomed(w, kids, depth, x, k, q);
      UnderKept(w, kids, depth, x, k, w', kids', q);
    }
  }

  lemma DoomedApart(w: seq<Window>, kids: seq<seq<nat>>, depth: seq<nat>, x: nat, k: nat, i: nat)
    requires Tree(w, kids, depth) && Live(w, x) && k < |kids[x]| && i < |w|
    requires Doomed(w, kids, depth, x, k, i)
    ensures !Under(w, depth, i, kids[x][k])
  {
    var m :| 0 <= m < k && Under(w, depth, i, kids[x][m]);
    ChildFacts(w, kids, depth, x, k);
    ChildFacts(w, kids, depth, x, m);
    assert Placed(w, kids, depth, x);
    if Under(w, depth, i, kids[x][k]) {
      UnderOne(w, kids, depth, i, kids[x][m], kids[x][k]);
    }
  }

  lemma PartlyStep(w: seq<Window>, kids: seq<seq<nat>>, depth: seq<nat>, x: nat, k: nat, w1: seq<Window>,
                   kids1: seq<seq<nat>>, w2: seq<Window>, kids2: seq<seq<nat>>)
    requires Tree(w, kids, depth) && Live(w, x) && k < |kids[x]|
    requires Partly(w, kids, depth, x, k, w1, kids1)
    requires kids[x][k] < |w| && Cut(w1, kids1, depth, kids[x][k], w2, kids2) && Tree(w2, kids2, depth)
    ensures Partly(w, kids, depth, x, k + 1, w2, kids2)
  {
    var c, next := kids[x][k], k + 1;
    ChildFacts(w, kids, depth, x, k);
    ChildStays(w, kids, depth, x, k, w1, kids1);
    NotDoomed(w, kids, depth, x, k);
    forall i | 0 <= i < |w| ensures PartlyAt(w, kids, depth, x, next, w2, kids2, i) {
      assert Placed(w2, kids2, depth, i);
      UnderKept(w, kids, depth, x, k, w1, kids1, i);
      assert PartlyAt(w, kids, depth, x, k, w1, kids1, i) && CutAt(w1, kids1, depth, c, w2, kids2, i);
      DoomedNext(w, kids, depth, x, k, i);
      hide Tree, Partly, Cut, Under, Doomed;
    }
  }

  lemma DoomedNext(w: seq<Window>, kids: seq<seq<nat>>, depth: seq<nat>, x: nat, k: nat, i: nat)
    requires |w| == |kids| == |depth| && x < |w| && i < |w| && k < |kids[x]|
    ensures Doomed(w, kids, depth, x, k + 1, i) <==> Doomed(w, kids, depth, x, k, i) || Under(w, depth, i, kids[x][k])
  {
  }

  /** The next child is still there, at the head of its parent's list. */
  lemma ChildStays(w: seq<Window>, kids: seq<seq<nat>>, depth: seq<nat>, x: nat, k: nat, w1: seq<Window>,
                   kids1: seq<seq<nat>>)
    requires Tree(w, kids, depth) && Live(w, x) && k < |kids[x]| && kids[x][k] < |w|
    requires Partly(w, kids, depth, x, k, w1, kids1)
    ensures w1[kids[x][k]].hwnd != 0 && w1[kids[x][k]].parent == x
    ensures kids1[x] == kids[x][k..] && Without(kids1[x], kids[x][k]) == kids[x][k + 1..]
  {
    var c := kids[x][k];
    ChildFacts(w, kids, depth, x, k);
    assert PartlyAt(w, kids, depth, x, k, w1, kids1, c) && PartlyAt(w, kids, depth, x, k, w1, kids1, x);
    if Doomed(w, kids, depth, x, k, c) {
      DoomedApart(w, kids, depth, x, k, c);
    }
    NotDoomed(w, kids, depth, x, k);
  }

  lemma NotDoomed(w: seq<Window>, kids: seq<seq<nat>>, depth: seq<nat>, x: nat, k: nat)
    requires Tree(w, kids, depth) && Live(w, x) && k <= |kids[x]|
    ensures !Doomed(w, kids, depth, x, k, x)
  {
    forall m | 0 <= m < k ensures !Under(w, depth, x, kids[x][m]) {
      ChildFacts(w, kids, depth, x, m);
      if Under(w, depth, x, kids[x][m]) {
        UnderLive(w, kids, depth, x, kids[x][m]);
      }
    }
  }

  /** With all children gone and the window itself unlinked, the subtree is cut. */
  lemma CutDone(w: seq<Window>, kids: seq<seq<nat>>, depth: seq<nat>, x: nat, w1: seq<Window>, kids1: seq<seq<nat>>,
                w2: seq<Window>, p: nat, j: nat)
    requires Tree(w, kids, depth) && Live(w, x) && x > 0 && w[x].parent == p
    requires Partly(w, kids, depth, x, |kids[x]|, w1, kids1)
    requires PlaceOf(w1, kids1, p, j) && kids1[p][j] == x && Unlinked(w1, kids1, w2, p, j)
    requires Tree(w2, kids1[p := Without(kids1[p], x)], depth)
    ensures Cut(w, kids, depth, x, w2, kids1[p := Without(kids1[p], x)])
  {
    var kids2 := kids1[p := Without(kids1[p], x)];
    var _ := ParentFacts(w, kids, depth, x);
    forall i | 0 <= i < |w| ensures CutAt(w, kids, depth, x, w2, kids2, i) {
      assert PartlyAt(w, kids, depth, x, |kids[x]|, w1, kids1, i) && Placed(w2, kids2, depth, i);
      DoomedAll(w, kids, depth, x, i);
      if i == p {
        if Under(w, depth, p, x) {
          UnderLive(w, kids, depth, p, x);
        }
      }
    }
  }

  lemma DoomedAll(w: seq<Window>, kids: seq<seq<nat>>, depth: seq<nat>, x: nat, i: nat)
    requires Tree(w, kids, depth) && Live(w, x) && i < |w|
    ensures Under(w, depth, i, x) <==> i == x || Doomed(w, kids, depth, x, |kids[x]|, i)
    ensures !Doomed(w, kids, depth, x, |kids[x]|, x)
  {
    NotDoomed(w, kids, depth, x, |kids[x]|);
    if i != x && Under(w, depth, i, x) {
      var k := UnderChild(w, kids, depth, i, x);
    }
    if Doomed(w, kids, depth, x, |kids[x]|, i) {
      var m :| 0 <= m < |kids[x]| && Under(w, depth, i, kids[x][m]);
      UnderThrough(w, kids, depth, i, x, m);
    }
  }

  // The anchor block.

  /** Where a new window goes: the top, behind the window with the given handle if that is a child, or the bottom. */
  function Place(list: seq<nat>, behind: nat): (j: nat)
    ensures j <= |list|
  {
    if behind == HWND_TOP then 0 else PlaceBehind(list, behind)
  }

  /** The place after the entry with handle `behind`, or the end. */
  function PlaceBehind(list: seq<nat>, behind: nat): (j: nat)
    ensures j <= |list|
  {
    if list == [] then 0 else if Handle(list[0]) == behind then 1 else 1 + PlaceBehind(list[1..], behind)
  }

  lemma {:induction false} PlaceFound(list: seq<nat>, j: nat)
    requires j < |list| && Distinct(list)
    ensures PlaceBehind(list, Handle(list[j])) == j + 1
  {
    if j > 0 {
      assert forall k :: 0 < k < |list| ==> Handle(list[k]) != Handle(list[0]);
      PlaceFound(list[1..], j - 1);
    }
  }

  lemma {:induction false} PlaceMissing(list: seq<nat>, behind: nat)
    requires forall k :: 0 <= k < |list| ==> Handle(list[k]) != behind
    ensures PlaceBehind(list, behind) == |list|
  {
    if list != [] {
      PlaceMissing(list[1..], behind);
    }
  }

  predicate HasHandle(list: seq<nat>, hwnd: nat) {
    exists k :: 0 <= k < |list| && Handle(list[k]) == hwnd
  }

  /**
   * The children before and after: `win` is new among them, in front for HWND_TOP, right after the child with the
   * handle `behind`, and at the end for HWND_BOTTOM and for a handle that no child has; the others keep their order.
   */
  ghost predicate InPlace(was: seq<nat>, list: seq<nat>, win: nat, behind: nat) {
    && (exists j :: 0 <= j <= |was| && list == was[..j] + [win] + was[j..])
    && (behind == HWND_TOP ==> list[0] == win)
    && (behind == HWND_BOTTOM || (behind != HWND_TOP && !HasHandle(was, behind)) ==> list[|list| - 1] == win)
    && (forall k :: 0 <= k < |was| && behind != HWND_TOP && Handle(was[k]) == behind ==>
          list[k] == was[k] && list[k + 1] == win)
  }

  lemma PlaceMeans(list: seq<nat>, behind: nat, win: nat)
    requires Distinct(list) && 0 !in list
    ensures InPlace(list, Insert(list, Place(list, behind), win), win, behind)
  {
    assert forall k :: 0 <= k < |list| ==> list[k] in list;
    hide PlaceBehind;
    if behind == HWND_BOTTOM || !HasHandle(list, behind) {
      PlaceMissing(list, behind);
    }
    forall k | 0 <= k < |list| && Handle(list[k]) == behind
      ensures PlaceBehind(list, behind) == k + 1
    {
      PlaceFound(list, k);
    }
  }

  lemma PlaceInTree(w: seq<Window>, kids: seq<seq<nat>>, depth: seq<nat>, parent: nat, behind: nat, win: nat)
    requires Tree(w, kids, depth) && Live(w, parent)
    ensures InPlace(kids[parent], Insert(kids[parent], Place(kids[parent], behind), win), win, behind)
  {
    assert Placed(w, kids, depth, parent);
    hide Tree;
    PlaceMeans(kids[parent], behind, win);
  }

  lemma LinkedAt(w: seq<Window>, p: nat, list: seq<nat>, k: nat)
    requires p < |w| && (forall k :: 0 <= k < |list| ==> list[k] < |w|) && Linked(w, p, list)
    ensures w[p].children == At(list, 0) && (k < |list| ==> w[list[k]].sibling == At(list, k + 1))
  {
  }

  lemma OnlyAt(list: seq<nat>, j: nat, win: nat)
    requires Distinct(list) && (j < |list| ==> list[j] == win) && (j >= |list| ==> win !in list)
    ensures forall k :: 0 <= k < |list| && k != j ==> list[k] != win
  {
  }

  class Anchor {
    /** The desktop, then the anchor block's window structures. */
    const windows: array<Window>
    ghost var kids: seq<seq<nat>>
    ghost var depth: seq<nat>
    ghost var bound: nat

    ghost predicate Valid()
      reads this, windows
    {
      Tree(windows[..], kids, depth) && forall i :: 0 <= i < |depth| ==> depth[i] <= bound
    }

    constructor (n: nat)
      ensures Valid() && fresh(windows) && windows.Length == n + 1
      ensures forall i :: 0 < i <= n ==> windows[i] == CLEARED
    {
      windows := new Window[n + 1](i => if i == 0 then Window(HWND_DESKTOP, NULL, NULL, NULL) else CLEARED);
      kids, depth, bound := seq(n + 1, _ => []), seq(n + 1, _ => 0), 0;
      new;
      forall i | 0 <= i < windows.Length ensures Placed(windows[..], kids, depth, i) {
        assert windows[..][i] == windows[i];
      }
    }

    /** getWindowFromHWND: the live window with this handle, or the null pointer. */
    method GetWindow(hwnd: nat) returns (win: int)
      requires windows.Length > 0 && windows[0].hwnd == HWND_DESKTOP
      requires forall i :: 0 <= i < windows.Length && windows[i].hwnd != 0 ==> windows[i].hwnd == Handle(i)
      ensures win != NULL ==> Live(windows[..], win) && windows[win].hwnd == hwnd
      ensures win == NULL ==> forall i :: 0 <= i < windows.Length && windows[i].hwnd != 0 ==> windows[i].hwnd != hwnd
    {
      if hwnd >= FIRST_HWND {
        var idx := hwnd - FIRST_HWND;
        if idx >= windows.Length - 1 {
          return NULL;
        }
        win := if windows[idx + 1].hwnd == hwnd then idx + 1 else NULL;
      } else if hwnd == HWND_DESKTOP {
        win := 0;
      } else {
        win := NULL;
      }
    }

    /** The search through the parent's list, and the unlinking if the window is found there at place `j`. */
    method Unlink(win: nat, ghost list: seq<nat>, ghost j: nat)
      requires win < windows.Length && 0 <= windows[win].parent < windows.Length
      requires forall k :: 0 <= k < |list| ==> list[k] < windows.Length
      requires Linked(windows[..], windows[win].parent, list) && windows[win].parent != win
      requires Distinct(list) && (j < |list| ==> list[j] == win) && (j >= |list| ==> win !in list)
      modifies windows
      ensures j >= |list| ==> windows[..] == old(windows[..])
      ensures j < |list| ==> forall i :: 0 <= i < windows.Length ==>
        windows[i] == if j == 0 && i == old(windows[win].parent) then old(windows[i].(children := windows[win].sibling))
                      else if j > 0 && i == list[j - 1] then old(windows[i].(sibling := windows[win].sibling))
                      else old(windows[i])
    {
      hide Linked, Distinct;
      var p := windows[win].parent;
      ghost var w := windows[..];
      LinkedAt(w, p, list, 0);
      OnlyAt(list, j, win);
      if windows[p].children == win {
        windows[p] := windows[p].(children := windows[win].sibling);
      } else {
        var i := windows[p].children;
        ghost var k := 0;
        while i != NULL
          invariant k <= |list| && i == At(list, k) && (j < |list| ==> k < j)
          invariant windows[..] == w
          decreases |list| - k
        {
          LinkedAt(w, p, list, k);
          assert windows[i] == w[i];
          if windows[i].sibling == win {
            windows[i] := windows[i].(sibling := windows[win].sibling);
            break;
          }
          i := windows[i].sibling;
          k := k + 1;
        }
      }
    }

    /** Unlinking a childless window and clearing its structure. */
    method Remove(win: nat)
      requires Valid() && 0 < win < windows.Length && windows[win].hwnd != 0 && kids[win] == []
      modifies windows, this`kids
      ensures Valid() && 0 <= old(windows[win].parent) < windows.Length
      ensures kids == old(kids[windows[win].parent := Without(kids[windows[win].parent], win)])
      ensures exists j: nat :: PlaceOf(old(windows[..]), old(kids), old(windows[win].parent), j)
                            && old(kids[windows[win].parent][j]) == win
                            && Unlinked(old(windows[..]), old(kids), windows[..], old(windows[win].parent), j)
    {
      ghost var w, p := windows[..], windows[win].parent;
      ghost var j := ParentFacts(w, kids, depth, win);
      PlaceFacts(w, kids, depth, p, j);
      assert Placed(w, kids, depth, p) && Placed(w, kids, depth, win);
      hide Tree, Placed, Family;
      Unlink(win, kids[p], j);
      windows[win] := CLEARED;
      assert Unlinked(w, kids, windows[..], p, j);
      UnlinkedTree(w, kids, depth, windows[..], p, j);
      kids := kids[p := Without(kids[p], win)];
    }

    /**
     * destroyWindow, with a WM_DESTROY handler that leaves the windows alone: the whole subtree and nothing else. The
     * desktop loses its children and then, having no parent, makes the routine follow a null pointer.
     */
    method DestroyWindow(win: nat) returns (crash: bool)
      requires Valid() && win < windows.Length
      modifies windows, this`kids
      ensures Valid() && (crash <==> win == 0)
      ensures crash ==> kids[0] == []
      ensures old(windows[win].hwnd) == 0 ==> windows[..] == old(windows[..]) && kids == old(kids)
      ensures old(windows[win].hwnd) != 0 && !crash ==> Cut(old(windows[..]), old(kids), depth, win, windows[..], kids)
      decreases bound - depth[win]
    {
      crash := false;
      if windows[win].hwnd == 0 {
        return;
      }
      ghost var w, kids0, k: nat := windows[..], kids, 0;
      var i, next := windows[win].children, NULL;
      assert Placed(w, kids, depth, win);
      NoneGone(w, kids, depth, win);
      hide Tree, Partly, Cut, Placed;
      while i != NULL
        invariant k <= |kids0[win]| && i == At(kids0[win], k) && !crash
        invariant Valid() && Partly(w, kids0, depth, win, k, windows[..], kids)
        decreases |kids0[win]| - k
      {
        ghost var w1, kids1 := windows[..], kids;
        ChildFacts(w, kids0, depth, win, k);
        ChildStays(w, kids0, depth, win, k, w1, kids1);
        WindowStays(w, kids0, depth, win, k, w1, kids1);
        ChildFacts(w1, kids1, depth, win, 0);
        next := windows[i].sibling;
        crash := DestroyWindow(i);
        PartlyStep(w, kids0, depth, win, k, w1, kids1, windows[..], kids);
        i := next;
        k := k + 1;
      }
      ghost var w1, kids1 := windows[..], kids;
      WindowStays(w, kids0, depth, win, k, w1, kids1);
      if windows[win].parent == NULL {
        return true;
      }
      Remove(win);
      ghost var j: nat :| PlaceOf(w1, kids1, w[win].parent, j) && kids1[w[win].parent][j] == win
                       && Unlinked(w1, kids1, windows[..], w[win].parent, j);
      CutDone(w, kids0, depth, win, w1, kids1, windows[..], w[win].parent, j);
    }

    /** WinDestroyWindow, which accepts the desktop's handle. */
    method WinDestroyWindow(hwnd: nat) returns (ok: bool, crash: bool)
      requires Valid()
      modifies windows, this`kids
      ensures Valid() && (crash <==> hwnd == HWND_DESKTOP)
      ensures crash ==> kids[0] == []
      ensures ok <==> !crash && exists i :: 0 <= i < windows.Length && old(windows[i].hwnd) == hwnd != 0
      ensures !ok && !crash ==> windows[..] == old(windows[..]) && kids == old(kids)
      ensures ok ==> exists win: nat :: 0 < win < windows.Length && old(windows[win].hwnd) == hwnd
                                    && Cut(old(windows[..]), old(kids), depth, win, windows[..], kids)
    {
      HandlesOf(windows[..], kids, depth);
      assert forall i :: 0 <= i < windows.Length ==> windows[i] == windows[..][i];
      var win := GetWindow(hwnd);
      if win == NULL {
        return false, false;
      }
      assert Placed(windows[..], kids, depth, 0) && old(windows[win].hwnd) == hwnd;
      crash := DestroyWindow(win);
      ok := !crash;
    }

    /** The window part of WinTerminate: afterwards only the desktop is left. */
    method WinTerminate()
      requires Valid()
      modifies windows, this`kids
      ensures Valid() && kids[0] == []
      ensures forall i :: 0 < i < windows.Length ==> windows[i] == CLEARED
    {
      for i := 1 to windows.Length
        invariant Valid() && forall k :: 0 < k < i ==> windows[k].hwnd == 0
      {
        ghost var w, kids0 := windows[..], kids;
        var _ := DestroyWindow(i);
        forall k | 0 < k <= i ensures windows[k].hwnd == 0 {
          if w[i].hwnd == 0 {
          } else {
            assert CutAt(w, kids0, depth, i, windows[..], kids, k);
          }
        }
      }
      forall i | 0 < i < windows.Length ensures windows[i] == CLEARED {
        assert Placed(windows[..], kids, depth, i);
      }
      if kids[0] != [] {
        ChildFacts(windows[..], kids, depth, 0, 0);
      }
    }

    /** The first free structure, or the end of the array, whose growth is not modelled. */
    method FreeSlot() returns (slot: nat)
      ensures 0 < slot
      ensures slot < windows.Length ==> windows[slot].hwnd == 0
      ensures forall i :: 0 < i < slot && i < windows.Length ==> windows[i].hwnd != 0
    {
      slot := 1;
      while slot < windows.Length
        invariant 0 < slot && forall i :: 0 < i < slot && i < windows.Length ==> windows[i].hwnd != 0
      {
        if windows[slot].hwnd == 0 {
          return;
        }
        slot := slot + 1;
      }
    }

    /** The last window of the list starting at `first`. */
    method LastOf(first: nat, ghost p: nat) returns (last: nat)
      requires p < windows.Length && |kids| == windows.Length && kids[p] != [] && first == kids[p][0]
      requires (forall k :: 0 <= k < |kids[p]| ==> kids[p][k] < windows.Length) && Linked(windows[..], p, kids[p])
      ensures last == kids[p][|kids[p]| - 1]
    {
      var prev, i: int := NULL, first;
      ghost var k := 0;
      while i != NULL
        invariant k <= |kids[p]| && i == At(kids[p], k)
        invariant prev == if k == 0 then NULL else kids[p][k - 1]
        decreases |kids[p]| - k
      {
        prev := i;
        assert windows[..][kids[p][k]].sibling == At(kids[p], k + 1);
        i := windows[i].sibling;
        k := k + 1;
      }
      last := prev;
    }

    /** The structure `win` has been filled in as a child of `parent`, on top of the tree `w`. */
    ghost predicate Ready(w: seq<Window>, win: nat, parent: nat)
      reads this, windows
    {
      && Tree(w, kids, depth) && |w| == windows.Length && (forall i :: 0 <= i < |depth| ==> depth[i] <= bound)
      && Live(w, parent) && 0 < win < |w| && w[win].hwnd == 0
      && windows[..] == w[win := Window(Handle(win), parent, NULL, NULL)]
    }

    /** The window after which to insert: a child of `parent` other than the new window, the window itself, or none. */
    method FindBehind(win: nat, parent: nat, behind: nat, ghost w: seq<Window>) returns (after: int)
      requires Ready(w, win, parent)
      requires behind != HWND_TOP && behind != HWND_BOTTOM
      ensures IsBehind(w, kids, win, parent, behind, after)
    {
      HandlesOf(w, kids, depth);
      assert forall i :: 0 <= i < windows.Length ==> windows[i] == windows[..][i];
      after := GetWindow(behind);
      if after == NULL || windows[after].parent != parent {
        after := NULL;
      }
      hide Tree;
      BehindFound(w, kids, depth, win, parent, behind, after);
    }

    /** The ghost side of an insertion. */
    ghost method Settle(win: nat, parent: nat, j: nat, w: seq<Window>)
      requires Tree(w, kids, depth) && (forall i :: 0 <= i < |depth| ==> depth[i] <= bound)
      requires Room(w, kids, parent, j, win) && Inserted(w, kids[parent], windows[..], parent, j, win)
      modifies this`kids, this`depth, this`bound
      ensures Valid() && kids == old(kids)[parent := Insert(old(kids[parent]), j, win)]
      ensures Added(w, windows[..], win, parent)
    {
      InsertedTree(w, kids, depth, windows[..], parent, j, win);
      kids := kids[parent := Insert(kids[parent], j, win)];
      depth := depth[win := depth[parent] + 1];
      bound := bound + 1;
    }

    method InsertTop(win: nat, parent: nat, ghost w: seq<Window>)
      requires Ready(w, win, parent)
      modifies windows, this`kids, this`depth, this`bound
      ensures Valid() && kids == old(kids)[parent := Insert(old(kids[parent]), 0, win)]
      ensures Added(w, windows[..], win, parent)
    {
      assert w[parent].children == At(kids[parent], 0) by {
        assert Placed(w, kids, depth, parent);
      }
      RoomFacts(w, kids, depth, parent, 0, win);
      hide Tree, Insert, Distinct;
      windows[win] := windows[win].(sibling := windows[parent].children);
      windows[parent] := windows[parent].(children := win);
      Settle(win, parent, 0, w);
    }

    method InsertBottom(win: nat, parent: nat, ghost w: seq<Window>)
      requires Ready(w, win, parent) && kids[parent] != []
      modifies windows, this`kids, this`depth, this`bound
      ensures Valid() && kids == old(kids)[parent := Insert(old(kids[parent]), |old(kids[parent])|, win)]
      ensures Added(w, windows[..], win, parent)
    {
      assert w[parent].children == At(kids[parent], 0) by {
        assert Placed(w, kids, depth, parent);
      }
      RoomFacts(w, kids, depth, parent, |kids[parent]|, win);
      LinkedStill(w, kids, depth, windows[..], parent, win);
      assert |kids| == windows.Length;
      hide Tree, Insert, Distinct, Linked;
      var last := LastOf(windows[parent].children, parent);
      windows[last] := windows[last].(sibling := win);
      Settle(win, parent, |kids[parent]|, w);
    }

    method InsertAfter(win: nat, parent: nat, after: nat, ghost j: nat, ghost w: seq<Window>)
      requires Ready(w, win, parent) && 0 < j <= |kids[parent]| && kids[parent][j - 1] == after < windows.Length
      modifies windows, this`kids, this`depth, this`bound
      ensures Valid() && kids == old(kids)[parent := Insert(old(kids[parent]), j, win)]
      ensures Added(w, windows[..], win, parent)
    {
      RoomFacts(w, kids, depth, parent, j, win);
      ChildFacts(w, kids, depth, parent, j - 1);
      hide Tree, Insert, Distinct;
      windows[win] := windows[win].(sibling := windows[after].sibling);
      windows[after] := windows[after].(sibling := win);
      Settle(win, parent, j, w);
    }

    /**
     * WinCreateWindow's insertion of the structure `win`, already filled in, among the children of `parent`. `behind`
     * is the handle left by WM_ADJUSTWINDOWPOS; `w` is the tree before. Inserting a window behind itself where there
     * are other children leaves it its own sibling, outside its parent's list; everything else keeps the tree.
     */
    method InsertWindow(win: nat, parent: nat, behind: nat, ghost w: seq<Window>)
      requires Ready(w, win, parent)
      modifies windows, this`kids, this`depth, this`bound
      ensures behind == Handle(win) && old(kids[parent]) != [] ==>
        windows[..] == w[win := Window(Handle(win), parent, NULL, win)] && !Valid()
      ensures !(behind == Handle(win) && old(kids[parent]) != []) ==>
        && Valid() && kids == old(kids)[parent := Insert(old(kids[parent]), Place(old(kids[parent]), behind), win)]
        && Added(w, windows[..], win, parent) && InPlace(old(kids[parent]), kids[parent], win, behind)
    {
      ghost var list := kids[parent];
      PlaceInTree(w, kids, depth, parent, behind, win);
      hide InPlace;
      var after := NULL;
      if behind != HWND_TOP && behind != HWND_BOTTOM {
        after := FindBehind(win, parent, behind, w);
      }
      assert windows[parent].children == At(list, 0) by {
        assert Placed(w, kids, depth, parent);
        assert windows[..][parent] == windows[parent];
      }
      if windows[parent].children == NULL {
        InsertTop(win, parent, w);
      } else if behind == HWND_TOP {
        InsertTop(win, parent, w);
      } else if after == NULL {
        BottomIsLast(w, kids, depth, parent);
        InsertBottom(win, parent, w);
      } else if after != win {
        InsertAfter(win, parent, after, PlaceBehind(list, behind), w);
      } else {
        windows[win] := windows[win].(sibling := windows[after].sibling);
        windows[after] := windows[after].(sibling := win);
        if Tree(windows[..], kids, depth) {
          NoSelfLoop(windows[..], kids, depth, win);
        }
      }
    }

    /** destroyWindow on a window that has no children and no place in its parent's list yet. */
    method Discard(win: nat, ghost w: seq<Window>)
      requires exists p: nat :: Ready(w, win, p)
      modifies windows
      ensures windows[..] == w
    {
      ghost var p: nat :| Ready(w, win, p);
      ghost var list := kids[p];
      assert w[win] == CLEARED by {
        assert Placed(w, kids, depth, win);
      }
      LinkedStill(w, kids, depth, windows[..], p, win);
      RoomFacts(w, kids, depth, p, 0, win);
      hide Tree, Linked;
      Unlink(win, list, |list|);
      windows[win] := CLEARED;
    }

    /**
     * WinCreateWindow, as far as it concerns the tree; handlers leave the windows alone, and `behind` is the handle
     * that WM_ADJUSTWINDOWPOS leaves in the position. Every failure, and a WM_CREATE handler that cancels, leaves the
     * tree as it was; otherwise the first free structure becomes a child of the parent, in the place asked for.
     */
    method WinCreateWindow(hwndParent: nat, behind: nat) returns (hwnd: nat, ghost win: nat, ghost parent: nat)
      requires Valid()
      modifies windows, this`kids, this`depth, this`bound
      ensures hwnd == 0 ==> Valid() && windows[..] == old(windows[..]) && kids == old(kids)
      ensures hwnd != 0 ==>
        && win < windows.Length && old(windows[win].hwnd) == 0 && hwnd == Handle(win)
        && (forall i :: 0 <= i < win ==> old(windows[i].hwnd) != 0)
        && parent < windows.Length && old(windows[parent].hwnd) == hwndParent
      ensures hwnd != 0 && behind == hwnd && old(kids[parent]) != [] ==>
        windows[..] == old(windows[..])[win := Window(hwnd, parent, NULL, win)] && !Valid()
      ensures hwnd != 0 && !(behind == hwnd && old(kids[parent]) != []) ==>
        && Valid() && Added(old(windows[..]), windows[..], win, parent)
        && kids == old(kids)[parent := kids[parent]] && InPlace(old(kids[parent]), kids[parent], win, behind)
    {
      hwnd, win, parent := 0, 0, 0;
      ghost var w := windows[..];
      HandlesOf(w, kids, depth);
      assert forall i :: 0 <= i < windows.Length ==> windows[i] == w[i];
      var p := GetWindow(hwndParent);
      if p == NULL {
        return;
      }
      var slot := FreeSlot();
      var resources: bool, cancelled: bool := *, *;
      if slot >= windows.Length || !resources {
        return;
      }
      win, parent := slot, p;
      assert Placed(w, kids, depth, slot);
      windows[slot] := Window(slot - 1 + FIRST_HWND, p, NULL, NULL);
      assert windows[..] == w[win := Window(Handle(win), parent, NULL, NULL)];
      assert Ready(w, win, parent);
      hide Tree;
      if cancelled {
        Discard(slot, w);
        return;
      }
      InsertWindow(slot, p, behind, w);
      hwnd := slot - 1 + FIRST_HWND;
    }
  }

  /** `win` is a new child of `parent`; all other windows keep their handles and parents. */
  predicate Added(w: seq<Window>, w': seq<Window>, win: nat, parent: nat) {
    && |w'| == |w| && win < |w| && w'[win].hwnd == Handle(win) && w'[win].parent == parent
    && forall i :: 0 <= i < |w| && i != win ==> w'[i].hwnd == w[i].hwnd && w'[i].parent == w[i].parent
  }

  lemma {:induction false} InsertUndone(list: seq<nat>, j: nat, x: nat)
    requires j <= |list| && x !in list
    ensures Without(Insert(list, j, x), x) == list
  {
    if j == 0 {
      assert Insert(list, 0, x)[1..] == list;
    } else {
      assert list[0] in list && Insert(list, j, x)[1..] == Insert(list[1..], j - 1, x);
      InsertUndone(list[1..], j - 1, x);
      assert list == [list[0]] + list[1..];
    }
  }

  /** Destroying a window just created gives back the tree from before its creation. */
  lemma DestroyUndoesCreate(w: seq<Window>, kids: seq<seq<nat>>, depth: seq<nat>, win: nat, parent: nat, j: nat,
                            w1: seq<Window>, kids1: seq<seq<nat>>, depth1: seq<nat>, w2: seq<Window>,
                            kids2: seq<seq<nat>>)
    requires Tree(w, kids, depth) && Live(w, parent) && 0 < win < |w| && w[win].hwnd == 0 && j <= |kids[parent]|
    requires Tree(w1, kids1, depth1) && Added(w, w1, win, parent)
    requires kids1 == kids[parent := Insert(kids[parent], j, win)]
    requires Cut(w1, kids1, depth1, win, w2, kids2)
    ensures kids2 == kids && forall i :: 0 <= i < |w| ==> Live(w2, i) == Live(w, i)
  {
    RoomFacts(w, kids, depth, parent, j, win);
    InsertUndone(kids[parent], j, win);
    forall i | 0 <= i < |w| ensures kids2[i] == kids[i] && Live(w2, i) == Live(w, i) {
      assert CutAt(w1, kids1, depth1, win, w2, kids2, i);
      if i != win && Under(w1, depth1, i, win) {
        var k := UnderChild(w1, kids1, depth1, i, win);
      }
    }
  }

  /** What the search for the window to insert behind finds. */
  predicate IsBehind(w: seq<Window>, kids: seq<seq<nat>>, win: nat, parent: nat, behind: nat, after: int)
    requires parent < |kids|
  {
    if behind == Handle(win) then after == win
    else if after == NULL then PlaceBehind(kids[parent], behind) == |kids[parent]|
    else 0 < PlaceBehind(kids[parent], behind) && 0 <= after < |w|
         && kids[parent][PlaceBehind(kids[parent], behind) - 1] == after && after != win
  }

  lemma BehindFound(w: seq<Window>, kids: seq<seq<nat>>, depth: seq<nat>, win: nat, parent: nat, behind: nat,
                    after: int)
    requires Tree(w, kids, depth) && Live(w, parent) && 0 < win < |w| && w[win].hwnd == 0
    requires behind == Handle(win) ==> after == win
    requires behind != Handle(win) && after != NULL ==>
               Live(w, after) && w[after].hwnd == behind && w[after].parent == parent
    requires after == NULL ==> forall i :: 0 <= i < |w| && w[i].hwnd == behind != 0 ==> w[i].parent != parent
    ensures IsBehind(w, kids, win, parent, behind, after)
  {
    var list := kids[parent];
    if behind != Handle(win) {
      if after == NULL {
        HandlesOf(w, kids, depth);
        forall k | 0 <= k < |list| ensures Handle(list[k]) != behind {
          ChildFacts(w, kids, depth, parent, k);
        }
        PlaceMissing(list, behind);
      } else {
        HandlesOf(w, kids, depth);
        var k := ParentFacts(w, kids, depth, after);
        PlaceFacts(w, kids, depth, parent, k);
        PlaceFound(list, k);
      }
    }
  }

  /** Filling in an unused structure does not disturb the lists. */
  lemma LinkedStill(w: seq<Window>, kids: seq<seq<nat>>, depth: seq<nat>, w': seq<Window>, p: nat, x: nat)
    requires Tree(w, kids, depth) && Live(w, p) && x < |w| && w[x].hwnd == 0
    requires |w'| == |w| && forall i :: 0 <= i < |w| && i != x ==> w'[i] == w[i]
    ensures (forall k :: 0 <= k < |kids[p]| ==> kids[p][k] < |w|) && Linked(w', p, kids[p])
  {
    assert Placed(w, kids, depth, p);
    forall k | 0 <= k < |kids[p]| ensures kids[p][k] < |w| && kids[p][k] != x {
      ChildFacts(w, kids, depth, p, k);
    }
  }

  lemma BottomIsLast(w: seq<Window>, kids: seq<seq<nat>>, depth: seq<nat>, p: nat)
    requires Tree(w, kids, depth) && Live(w, p)
    ensures PlaceBehind(kids[p], HWND_BOTTOM) == |kids[p]|
  {
    PlaceMissing(kids[p], HWND_BOTTOM);
  }

  lemma HandlesOf(w: seq<Window>, kids: seq<seq<nat>>, depth: seq<nat>)
    requires Tree(w, kids, depth)
    ensures |w| > 0 && w[0].hwnd == HWND_DESKTOP
    ensures forall i :: 0 <= i < |w| && w[i].hwnd != 0 ==> w[i].hwnd == Handle(i)
  {
    forall i | 0 <= i < |w| && w[i].hwnd != 0 ensures w[i].hwnd == Handle(i) {
      assert Placed(w, kids, depth, i);
    }
  }

  lemma NoneGone(w: seq<Window>, kids: seq<seq<nat>>, depth: seq<nat>, x: nat)
    requires |w| == |kids| == |depth| && x < |w|
    ensures Partly(w, kids, depth, x, 0, w, kids)
  {
  }

  /** The window itself is still there, with the children not yet destroyed. */
  lemma WindowStays(w: seq<Window>, kids: seq<seq<nat>>, depth: seq<nat>, x: nat, k: nat, w1: seq<Window>,
                    kids1: seq<seq<nat>>)
    requires Tree(w, kids, depth) && Live(w, x) && k <= |kids[x]|
    requires Partly(w, kids, depth, x, k, w1, kids1)
    ensures Live(w1, x) && w1[x].parent == w[x].parent && kids1[x] == kids[x][k..]
  {
    NotDoomed(w, kids, depth, x, k);
    assert PartlyAt(w, kids, depth, x, k, w1, kids1, x);
  }
}
