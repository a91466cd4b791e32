/** The window tree as the pointers in the window structures give it. */
module WindowTree {

  const NULL := -1

  /** The fields that make up the tree; pointers are positions, the desktop's is 0. */
  datatype Window = Window(hwnd: nat, parent: int, children: int, sibling: int)

  /** What memset leaves. */
  const CLEARED := Window(0, NULL, NULL, NULL)

  const HWND_DESKTOP := 1
  const HWND_TOP := 3
  const HWND_BOTTOM := 4
  const FIRST_HWND := 10

  /** The handle of the window structure at position `i`. */
  function Handle(i: nat): nat {
    if i == 0 then HWND_DESKTOP else i - 1 + FIRST_HWND
  }

  predicate Live(w: seq<Window>, i: int) {
    0 <= i < |w| && w[i].hwnd != 0
  }

  /** Entry `k` of a list, or the null pointer past its end. */
  function At(list: seq<nat>, k: nat): int {
    if k < |list| then list[k] else NULL
  }

  /** The child list of `p` is `list`. */
  predicate Linked(w: seq<Window>, p: nat, list: seq<nat>)
    requires p < |w| && forall k :: 0 <= k < |list| ==> list[k] < |w|
  {
    w[p].children == At(list, 0) && forall k :: 0 <= k < |list| ==> w[list[k]].sibling == At(list, k + 1)
  }

  predicate Distinct(list: seq<nat>) {
    forall j, k :: 0 <= j < k < |list| ==> list[j] != list[k]
  }

  predicate IsChild(w: seq<Window>, depth: seq<nat>, p: nat, c: nat)
    requires |depth| == |w| && p < |w|
  {
    0 < c < |w| && w[c].hwnd != 0 && w[c].parent == p && depth[c] == depth[p] + 1
  }

  /** The windows of `list` are live children of `p`, one level below it. */
  predicate Family(w: seq<Window>, depth: seq<nat>, p: nat, list: seq<nat>)
    requires |depth| == |w|
  {
    && p < |w| && Distinct(list)
    && forall k :: 0 <= k < |list| ==> IsChild(w, depth, p, list[k])
  }

  /** A window structure: unused, or with its handle, its children, and its place among its parent's children. */
  predicate Placed(w: seq<Window>, kids: seq<seq<nat>>, depth: seq<nat>, i: nat)
    requires |w| == |kids| == |depth| && i < |w|
  {
    if w[i].hwnd == 0 then w[i] == CLEARED && kids[i] == []
    else
      && w[i].hwnd == Handle(i)
      && Family(w, depth, i, kids[i]) && Linked(w, i, kids[i])
      && (i > 0 ==> Live(w, w[i].parent) && i in kids[w[i].parent] && depth[i] > 0)
  }

  /** The live windows form a tree rooted at the desktop, `kids` being the children in sibling order. */
  ghost predicate Tree(w: seq<Window>, kids: seq<seq<nat>>, depth: seq<nat>) {
    && |w| == |kids| == |depth| && |w| > 0 && w[0].hwnd == HWND_DESKTOP && w[0].parent == NULL
    && forall i :: 0 <= i < |w| ==> Placed(w, kids, depth, i)
  }

  /** `i` lies in the subtree of `x`. */
  predicate Under(w: seq<Window>, depth: seq<nat>, i: nat, x: nat)
    requires |w| == |depth| && i < |w|
    decreases depth[i]
  {
    || i == x
    || (i > 0 && Live(w, i) && Live(w, w[i].parent) && depth[w[i].parent] < depth[i] && Under(w, depth, w[i].parent, x))
  }

  /** A list without one of its entries. */
  function Without(list: seq<nat>, x: nat): (r: seq<nat>)
  {
    if list == [] then [] else if list[0] == x then list[1..] else [list[0]] + Without(list[1..], x)
  }

  lemma {:induction false} WithoutAt(list: seq<nat>, j: nat)
    requires j < |list| && Distinct(list)
    ensures Without(list, list[j]) == list[..j] + list[j + 1..]
  {
    if j > 0 {
      WithoutAt(list[1..], j - 1);
      assert list[0] != list[j];
      assert list[1..][..j - 1] == list[1..j] && list[..j] == [list[0]] + list[1..j];
    }
  }

  // Facts of any tree.

  lemma ChildFacts(w: seq<Window>, kids: seq<seq<nat>>, depth: seq<nat>, p: nat, k: nat)
    requires Tree(w, kids, depth) && Live(w, p) && k < |kids[p]|
    ensures var c := kids[p][k]; 0 < c < |w| && Live(w, c) && w[c].parent == p && depth[c] == depth[p] + 1
    ensures w[kids[p][k]].sibling == At(kids[p], k + 1)
  {
    assert Placed(w, kids, depth, p);
  }

  lemma ParentFacts(w: seq<Window>, kids: seq<seq<nat>>, depth: seq<nat>, c: nat) returns (k: nat)
    requires Tree(w, kids, depth) && Live(w, c) && c > 0
    ensures Live(w, w[c].parent) && k < |kids[w[c].parent]| && kids[w[c].parent][k] == c
    ensures depth[c] == depth[w[c].parent] + 1
  {
    assert Placed(w, kids, depth, c);
    k :| k < |kids[w[c].parent]| && kids[w[c].parent][k] == c;
    ChildFacts(w, kids, depth, w[c].parent, k);
  }

  /** Everything in a live window's subtree is live and at least as deep. */
  lemma {:induction false} UnderLive(w: seq<Window>, kids: seq<seq<nat>>, depth: seq<nat>, i: nat, x: nat)
    requires Tree(w, kids, depth) && Live(w, x) && i < |w| && Under(w, depth, i, x)
    ensures Live(w, i) && depth[i] >= depth[x] && (i != x ==> depth[i] > depth[x])
    decreases depth[i]
  {
    if i != x {
      UnderLive(w, kids, depth, w[i].parent, x);
    }
  }

  /** Subtrees of different windows at one depth do not meet. */
  lemma {:induction false} UnderOne(w: seq<Window>, kids: seq<seq<nat>>, depth: seq<nat>, i: nat, a: nat, b: nat)
    requires Tree(w, kids, depth) && Live(w, a) && Live(w, b) && depth[a] == depth[b]
    requires i < |w| && Under(w, depth, i, a) && Under(w, depth, i, b)
    ensures a == b
    decreases depth[i]
  {
    UnderLive(w, kids, depth, i, a);
    UnderLive(w, kids, depth, i, b);
    if i != a && i != b {
      UnderOne(w, kids, depth, w[i].parent, a, b);
    }
  }

  /** A proper descendant lies under one of the children. */
  lemma {:induction false} UnderChild(w: seq<Window>, kids: seq<seq<nat>>, depth: seq<nat>, i: nat, x: nat)
    returns (k: nat)
    requires Tree(w, kids, depth) && Live(w, x) && i < |w| && i != x && Under(w, depth, i, x)
    ensures k < |kids[x]| && kids[x][k] < |w| && Under(w, depth, i, kids[x][k])
    decreases depth[i]
  {
    var j := ParentFacts(w, kids, depth, i);
    if w[i].parent == x {
      k := j;
    } else {
      k := UnderChild(w, kids, depth, w[i].parent, x);
    }
  }

  lemma {:induction false} UnderThrough(w: seq<Window>, kids: seq<seq<nat>>, depth: seq<nat>, i: nat, x: nat, k: nat)
    requires Tree(w, kids, depth) && Live(w, x) && i < |w| && k < |kids[x]|
    requires Under(w, depth, i, kids[x][k])
    ensures Under(w, depth, i, x)
    decreases depth[i]
  {
    ChildFacts(w, kids, depth, x, k);
    if i != kids[x][k] {
      UnderThrough(w, kids, depth, w[i].parent, x, k);
    }
  }

  // Unlinking a childless window.

  /** `w` after the window at place `j` of its parent's list has been unlinked and cleared. */
  ghost predicate Unlinked(w: seq<Window>, kids: seq<seq<nat>>, w': seq<Window>, p: nat, j: nat)
    requires |w| == |kids| && p < |w| && j < |kids[p]| && kids[p][j] < |w| && kids[p][j] != p
    requires j > 0 ==> kids[p][j - 1] < |w| && kids[p][j - 1] != kids[p][j]
  {
    var x := kids[p][j];
    && |w'| == |w| && w'[x] == CLEARED
    && forall i :: 0 <= i < |w| && i != x ==>
         w'[i] == if j == 0 && i == p then w[i].(children := w[x].sibling)
                  else if j > 0 && i == kids[p][j - 1] then w[i].(sibling := w[x].sibling) else w[i]
  }

  predicate PlaceOf(w: seq<Window>, kids: seq<seq<nat>>, p: nat, j: nat) {
    && |w| == |kids| && p < |w| && j < |kids[p]| && kids[p][j] < |w| && kids[p][j] != p
    && (j > 0 ==> kids[p][j - 1] < |w| && kids[p][j - 1] != kids[p][j])
  }

  lemma PlaceFacts(w: seq<Window>, kids: seq<seq<nat>>, depth: seq<nat>, p: nat, j: nat)
    requires Tree(w, kids, depth) && Live(w, p) && j < |kids[p]|
    ensures PlaceOf(w, kids, p, j) && Distinct(kids[p])
  {
    assert Placed(w, kids, depth, p);
  }

  function Drop(list: seq<nat>, j: nat): (r: seq<nat>)
    requires j < |list|
    ensures |r| == |list| - 1
    ensures forall k :: 0 <= k < |r| ==> r[k] == list[if k < j then k else k + 1]
  {
    list[..j] + list[j + 1..]
  }

  lemma DropDistinct(list: seq<nat>, j: nat)
    requires j < |list| && Distinct(list)
    ensures Distinct(Drop(list, j))
  {
  }

  /** One of the remaining children of the parent. */
  lemma UnlinkedChild(w: seq<Window>, kids: seq<seq<nat>>, depth: seq<nat>, w': seq<Window>, p: nat, j: nat, k: nat)
    requires Tree(w, kids, depth) && Live(w, p) && PlaceOf(w, kids, p, j) && Unlinked(w, kids, w', p, j)
    requires k < |kids[p]| - 1
    ensures IsChild(w', depth, p, Drop(kids[p], j)[k])
    ensures w'[Drop(kids[p], j)[k]].sibling == At(Drop(kids[p], j), k + 1)
  {
    assert Placed(w, kids, depth, p);
    hide Drop;
    var m := if k < j then k else k + 1;
    assert IsChild(w, depth, p, kids[p][m]) && w[kids[p][m]].sibling == At(kids[p], m + 1);
    assert w[kids[p][j]].sibling == At(kids[p], j + 1);
  }

  lemma UnlinkedFamily(w: seq<Window>, kids: seq<seq<nat>>, depth: seq<nat>, w': seq<Window>, p: nat, j: nat)
    requires Tree(w, kids, depth) && Live(w, p) && PlaceOf(w, kids, p, j) && Unlinked(w, kids, w', p, j)
    ensures Family(w', depth, p, Drop(kids[p], j)) && Linked(w', p, Drop(kids[p], j)) && w'[p].hwnd == w[p].hwnd
  {
    PlaceFacts(w, kids, depth, p, j);
    DropDistinct(kids[p], j);
    assert w[p].children == At(kids[p], 0) && w[kids[p][j]].sibling == At(kids[p], j + 1) by {
      assert Placed(w, kids, depth, p);
    }
    var list := Drop(kids[p], j);
    assert w'[p].children == At(list, 0) && w'[p].hwnd == w[p].hwnd;
    hide Tree, Distinct, Drop, Unlinked;
    forall k | 0 <= k < |list|
      ensures IsChild(w', depth, p, list[k]) && w'[list[k]].sibling == At(list, k + 1)
    {
      UnlinkedChild(w, kids, depth, w', p, j, k);
    }
  }

  lemma UnlinkedOther(w: seq<Window>, kids: seq<seq<nat>>, depth: seq<nat>, w': seq<Window>, p: nat, j: nat, i: nat)
    requires Tree(w, kids, depth) && Live(w, p) && PlaceOf(w, kids, p, j) && Unlinked(w, kids, w', p, j)
    requires Live(w, i) && i != p && i != kids[p][j]
    ensures Family(w', depth, i, kids[i]) && Linked(w', i, kids[i]) && w'[i].hwnd == w[i].hwnd
  {
    var list, x := kids[i], kids[p][j];
    assert IsChild(w, depth, p, x) && (j > 0 ==> IsChild(w, depth, p, kids[p][j - 1])) by {
      assert Placed(w, kids, depth, p);
    }
    assert Family(w, depth, i, list) && Linked(w, i, list) by {
      assert Placed(w, kids, depth, i);
    }
    assert w'[i].children == w[i].children && w'[i].hwnd == w[i].hwnd;
    hide Tree, Distinct;
    forall k | 0 <= k < |list| ensures IsChild(w', depth, i, list[k]) && w'[list[k]].sibling == At(list, k + 1) {
      assert IsChild(w, depth, i, list[k]) && w[list[k]].sibling == At(list, k + 1);
    }
  }

  lemma UnlinkedTree(w: seq<Window>, kids: seq<seq<nat>>, depth: seq<nat>, w': seq<Window>, p: nat, j: nat)
    requires Tree(w, kids, depth) && Live(w, p) && PlaceOf(w, kids, p, j) && Unlinked(w, kids, w', p, j)
    requires kids[kids[p][j]] == []
    ensures Tree(w', kids[p := Without(kids[p], kids[p][j])], depth)
  {
    var x := kids[p][j];
    var kids' := kids[p := Without(kids[p], x)];
    PlaceFacts(w, kids, depth, p, j);
    WithoutAt(kids[p], j);
    assert Without(kids[p], x) == Drop(kids[p], j);
    forall i | 0 <= i < |w'| ensures Placed(w', kids', depth, i) {
      assert Placed(w, kids, depth, i);
      if i == x {
      } else if w[i].hwnd == 0 {
        assert Placed(w, kids, depth, p);
        assert j > 0 ==> IsChild(w, depth, p, kids[p][j - 1]);
      } else {
        if i == p {
          UnlinkedFamily(w, kids, depth, w', p, j);
        } else {
          UnlinkedOther(w, kids, depth, w', p, j, i);
        }
        if i > 0 {
          UnlinkedParent(w, kids, depth, w', p, j, i);
        }
      }
    }
  }

  lemma UnlinkedParent(w: seq<Window>, kids: seq<seq<nat>>, depth: seq<nat>, w': seq<Window>, p: nat, j: nat, i: nat)
    requires Tree(w, kids, depth) && Live(w, p) && PlaceOf(w, kids, p, j) && Unlinked(w, kids, w', p, j)
    requires kids[kids[p][j]] == [] && Live(w, i) && i > 0 && i != kids[p][j]
    ensures Live(w', w'[i].parent) && i in kids[p := Without(kids[p], kids[p][j])][w'[i].parent]
    ensures w'[i].hwnd == w[i].hwnd
  {
    PlaceFacts(w, kids, depth, p, j);
    WithoutAt(kids[p], j);
    var k := ParentFacts(w, kids, depth, i);
    assert w'[i].parent == w[i].parent;
    if w[i].parent == p {
      var list := kids[p][..j] + kids[p][j + 1..];
      assert list[if k < j then k else k - 1] == i;
    }
  }

  // Inserting a new window.

  function Insert(list: seq<nat>, j: nat, x: nat): (r: seq<nat>)
    requires j <= |list|
    ensures |r| == |list| + 1 && r[j] == x
    ensures forall k :: 0 <= k < |r| && k != j ==> r[k] == list[if k < j then k else k - 1]
  {
    list[..j] + [x] + list[j..]
  }

  /** `w` after the unused structure `x` has become the window at place `j` of `p`'s list. */
  ghost predicate Inserted(w: seq<Window>, list: seq<nat>, w': seq<Window>, p: nat, j: nat, x: nat)
    requires p < |w| && x < |w| && p != x && j <= |list|
    requires j > 0 ==> list[j - 1] < |w| && list[j - 1] != x
  {
    && |w'| == |w| && w'[x] == Window(Handle(x), p, NULL, At(list, j))
    && forall i :: 0 <= i < |w| && i != x ==>
         w'[i] == if j == 0 && i == p then w[i].(children := x)
                  else if j > 0 && i == list[j - 1] then w[i].(sibling := x) else w[i]
  }

  predicate Room(w: seq<Window>, kids: seq<seq<nat>>, p: nat, j: nat, x: nat) {
    && |w| == |kids| && p < |w| && 0 < x < |w| && p != x && w[p].hwnd != 0 && w[x].hwnd == 0 && j <= |kids[p]|
    && (j > 0 ==> kids[p][j - 1] < |w| && kids[p][j - 1] != x)
  }

  lemma RoomFacts(w: seq<Window>, kids: seq<seq<nat>>, depth: seq<nat>, p: nat, j: nat, x: nat)
    requires Tree(w, kids, depth) && Live(w, p) && 0 < x < |w| && !Live(w, x) && j <= |kids[p]|
    ensures Room(w, kids, p, j, x) && x !in kids[p] && kids[x] == [] && Distinct(kids[p])
    ensures Distinct(Insert(kids[p], j, x))
  {
    assert Placed(w, kids, depth, p) && Placed(w, kids, depth, x);
    forall k | 0 <= k < |kids[p]| ensures kids[p][k] != x {
      ChildFacts(w, kids, depth, p, k);
    }
    InsertDistinct(kids[p], j, x);
  }

  lemma InsertDistinct(list: seq<nat>, j: nat, x: nat)
    requires Distinct(list) && j <= |list| && x !in list
    ensures Distinct(Insert(list, j, x))
  {
  }

  lemma InsertedChild(w: seq<Window>, kids: seq<seq<nat>>, depth: seq<nat>, w': seq<Window>, p: nat, j: nat, x: nat,
                      k: nat)
    requires Tree(w, kids, depth) && Room(w, kids, p, j, x) && Inserted(w, kids[p], w', p, j, x) && k <= |kids[p]|
    ensures IsChild(w', depth[x := depth[p] + 1], p, Insert(kids[p], j, x)[k])
    ensures w'[Insert(kids[p], j, x)[k]].sibling == At(Insert(kids[p], j, x), k + 1)
  {
    RoomFacts(w, kids, depth, p, j, x);
    hide Insert, Distinct;
    if k != j {
      var m := if k < j then k else k - 1;
      ChildFacts(w, kids, depth, p, m);
    }
  }

  lemma InsertedOther(w: seq<Window>, kids: seq<seq<nat>>, depth: seq<nat>, w': seq<Window>, p: nat, j: nat, x: nat,
                      i: nat)
    requires Tree(w, kids, depth) && Room(w, kids, p, j, x) && Inserted(w, kids[p], w', p, j, x)
    requires Live(w, i) && i != p
    ensures Family(w', depth[x := depth[p] + 1], i, kids[i]) && Linked(w', i, kids[i]) && w'[i].hwnd == w[i].hwnd
  {
    assert Distinct(kids[i]) && w[i].children == At(kids[i], 0) by {
      assert Placed(w, kids, depth, i);
    }
    if j > 0 {
      ChildFacts(w, kids, depth, p, j - 1);
    }
    assert w'[i].children == w[i].children && w'[i].hwnd == w[i].hwnd;
    hide Distinct;
    forall k | 0 <= k < |kids[i]|
      ensures IsChild(w', depth[x := depth[p] + 1], i, kids[i][k]) && w'[kids[i][k]].sibling == At(kids[i], k + 1)
    {
      ChildFacts(w, kids, depth, i, k);
    }
  }

  lemma InsertedTree(w: seq<Window>, kids: seq<seq<nat>>, depth: seq<nat>, w': seq<Window>, p: nat, j: nat, x: nat)
    requires Tree(w, kids, depth) && Room(w, kids, p, j, x) && Inserted(w, kids[p], w', p, j, x)
    ensures Tree(w', kids[p := Insert(kids[p], j, x)], depth[x := depth[p] + 1])
  {
    var kids', depth' := kids[p := Insert(kids[p], j, x)], depth[x := depth[p] + 1];
    RoomFacts(w, kids, depth, p, j, x);
    assert w[p].hwnd != 0 && (j > 0 ==> w[kids[p][j - 1]].hwnd != 0) by {
      if j > 0 {
        ChildFacts(w, kids, depth, p, j - 1);
      }
    }
    assert Insert(kids[p], j, x)[j] == x;
    TreeFacts(w, kids, depth);
    NoFamily(w', depth', x);
    hide Insert, Distinct, Family, Linked, Tree;
    forall i | 0 <= i < |w'| ensures Placed(w', kids', depth', i) {
      assert Placed(w, kids, depth, i);
      if i == x {
      } else if w[i].hwnd != 0 {
        if i == p {
          InsertedFamily(w, kids, depth, w', p, j, x);
        } else {
          InsertedOther(w, kids, depth, w', p, j, x, i);
        }
        if i > 0 {
          InsertedParent(w, kids, depth, w', p, j, x, i);
        }
      }
    }
  }

  lemma InsertedParent(w: seq<Window>, kids: seq<seq<nat>>, depth: seq<nat>, w': seq<Window>, p: nat, j: nat, x: nat,
                       i: nat)
    requires Tree(w, kids, depth) && Room(w, kids, p, j, x) && Inserted(w, kids[p], w', p, j, x)
    requires Live(w, i) && i > 0
    ensures Live(w', w'[i].parent) && i in kids[p := Insert(kids[p], j, x)][w'[i].parent] && w'[i].hwnd == w[i].hwnd
  {
    var k := ParentFacts(w, kids, depth, i);
    if w[i].parent == p {
      assert Insert(kids[p], j, x)[if k < j then k else k + 1] == i;
    }
  }

  lemma TreeFacts(w: seq<Window>, kids: seq<seq<nat>>, depth: seq<nat>)
    requires Tree(w, kids, depth)
    ensures |w| == |kids| == |depth| && |w| > 0 && w[0].hwnd == HWND_DESKTOP && w[0].parent == NULL
    ensures forall i :: 0 <= i < |w| ==> Placed(w, kids, depth, i)
  {
  }

  lemma NoFamily(w: seq<Window>, depth: seq<nat>, x: nat)
    requires |w| == |depth| && x < |w| && w[x].children == NULL
    ensures Family(w, depth, x, []) && Linked(w, x, [])
  {
  }

  lemma InsertedFamily(w: seq<Window>, kids: seq<seq<nat>>, depth: seq<nat>, w': seq<Window>, p: nat, j: nat, x: nat)
    requires Tree(w, kids, depth) && Room(w, kids, p, j, x) && Inserted(w, kids[p], w', p, j, x)
    ensures var list := Insert(kids[p], j, x);
            Family(w', depth[x := depth[p] + 1], p, list) && Linked(w', p, list) && w'[p].hwnd == w[p].hwnd
  {
    RoomFacts(w, kids, depth, p, j, x);
    var list := Insert(kids[p], j, x);
    assert w[p].children == At(kids[p], 0) by {
      assert Placed(w, kids, depth, p);
    }
    if j > 0 {
      ChildFacts(w, kids, depth, p, j - 1);
    }
    assert w'[p].children == At(list, 0) && w'[p].hwnd == w[p].hwnd;
    hide Insert, Distinct, Tree, Inserted;
    forall k | 0 <= k < |list|
      ensures IsChild(w', depth[x := depth[p] + 1], p, list[k]) && w'[list[k]].sibling == At(list, k + 1)
    {
      InsertedChild(w, kids, depth, w', p, j, x, k);
    }
  }

  /** In a tree no window is its own next sibling. */
  lemma NoSelfLoop(w: seq<Window>, kids: seq<seq<nat>>, depth: seq<nat>, x: nat)
    requires Tree(w, kids, depth) && Live(w, x) && x > 0
    ensures w[x].sibling != x
  {
    var k := ParentFacts(w, kids, depth, x);
    ChildFacts(w, kids, depth, w[x].parent, k);
    assert Placed(w, kids, depth, w[x].parent);
  }
}
