/**
 * The window tree of user/window.c and kernel/event.c, read-only part.
 *
 * Windows live in an arena `map<Handle, Window>`. The global `windows`
 * list is the sequence `top` (its order is the paint and Z order) and each
 * window's `children` sequence is its child list; a window's `next` is the
 * element after it in whichever of these holds it.
 *
 * Walks over the tree terminate by a ghost `Shape`: every window's depth,
 * with each child one deeper than its parent, all bounded by `height`.
 */
module Tree {
  import opened Wrappers
  import opened Words
  import opened Messages
  import opened User

  type Arena = map<Handle, Window>

  datatype Shape = Shape(depth: map<Handle, nat>, height: nat)

  predicate NoDup(s: seq<Handle>) {
    forall i, j :: 0 <= i < j < |s| ==> s[i] != s[j]
  }

  /** Depths are bounded and each child is one level below its parent. */
  ghost predicate Layered(wins: Arena, s: Shape) {
    && (forall h {:trigger h in wins} | h in wins :: h in s.depth && s.depth[h] <= s.height)
    && (forall h, c {:trigger c in wins[h].children} | h in wins && c in wins[h].children ::
          c in wins && s.depth[c] == s.depth[h] + 1)
  }

  /**
   * The window links form a forest: parents and child lists agree, depths
   * grow by one per level, and top-level windows have no parent.
   */
  ghost predicate Linked(wins: Arena, top: seq<Handle>, s: Shape) {
    && s.depth.Keys == wins.Keys
    && Layered(wins, s)
    && STENCIL_TARGET !in wins
    && NoDup(top)
    && (forall h {:trigger h in top} | h in top :: h in wins && wins[h].parent.None?)
    && (forall h {:trigger wins[h].parent} | h in wins && wins[h].parent.None? :: s.depth[h] == 0)
    && (forall h {:trigger wins[h].parent} | h in wins && wins[h].parent.Some? ::
          wins[h].parent.value in wins && h in wins[wins[h].parent.value].children)
    && (forall h, c {:trigger c in wins[h].children} | h in wins && c in wins[h].children :: wins[c].parent == Some(h))
  }

  /** Every window without a parent is in the global list, except those in `detached`. */
  ghost predicate RootedExcept(wins: Arena, top: seq<Handle>, detached: set<Handle>) {
    forall h {:trigger wins[h].parent} | h in wins && wins[h].parent.None? && h !in detached :: h in top
  }

  /** A forest whose roots are exactly the `top` list. */
  ghost predicate Shaped(wins: Arena, top: seq<Handle>, s: Shape) {
    Linked(wins, top, s) && RootedExcept(wins, top, {})
  }

  /** Every entry of sibs is a window of the given depth. */
  ghost predicate Level(wins: Arena, s: Shape, sibs: seq<Handle>, level: nat) {
    forall x | x in sibs :: x in wins && x in s.depth && s.depth[x] == level
  }

  /** The list that holds h: the global list for a top-level window, else its parent's children. */
  function Siblings(wins: Arena, top: seq<Handle>, h: Handle): seq<Handle>
    requires h in wins
  {
    match wins[h].parent
    case None => top
    case Some(p) => if p in wins then wins[p].children else []
  }

  /** The position of x in s. */
  function IndexOf(s: seq<Handle>, x: Handle): (i: nat)
    requires x in s
    ensures i < |s| && s[i] == x && x !in s[..i]
  {
    if s[0] == x then 0 else 1 + IndexOf(s[1..], x)
  }

  lemma SiblingsLevel(wins: Arena, top: seq<Handle>, s: Shape, h: Handle)
    requires Shaped(wins, top, s) && h in wins
    ensures h in Siblings(wins, top, h)
    ensures Level(wins, s, Siblings(wins, top, h), s.depth[h])
    ensures forall y | y in Siblings(wins, top, h) :: y in wins && Siblings(wins, top, y) == Siblings(wins, top, h)
  {
  }

  lemma ChildrenLevel(wins: Arena, top: seq<Handle>, s: Shape, h: Handle)
    requires Shaped(wins, top, s) && h in wins
    ensures Level(wins, s, wins[h].children, s.depth[h] + 1)
    ensures wins[h].children != [] ==> s.depth[h] < s.height
    ensures wins[h].children != [] ==> wins[h].children == Siblings(wins, top, wins[h].children[0])
  {
    LayeredChildren(wins, s, h);
    if wins[h].children != [] {
      assert wins[h].children[0] in wins[h].children;
    }
  }

  lemma LayeredChildren(wins: Arena, s: Shape, h: Handle)
    requires Layered(wins, s) && h in wins
    ensures Level(wins, s, wins[h].children, s.depth[h] + 1)
    ensures wins[h].children != [] ==> s.depth[h] < s.height
  {
    var kids := wins[h].children;
    if kids != [] {
      assert kids[0] in kids;
    }
  }

  // ---------------------------------------------------------------------
  // get_root_window, is_window
  // ---------------------------------------------------------------------

  /** `get_root_window`: follow `parent` until a window without one. */
  function Root(wins: Arena, top: seq<Handle>, ghost s: Shape, h: Handle): (r: Handle)
    requires Shaped(wins, top, s) && h in wins
    ensures r in wins && wins[r].parent.None? && r in top
    ensures wins[h].parent.None? ==> r == h
    decreases s.depth[h]
  {
    match wins[h].parent
    case None => h
    case Some(p) => Root(wins, top, s, p)
  }

  /** A window is its root's descendant: the root is reached by following `parent` links. */
  ghost predicate Ancestor(wins: Arena, top: seq<Handle>, s: Shape, a: Handle, h: Handle)
    requires Shaped(wins, top, s) && h in wins
    decreases s.depth[h]
  {
    a == h || (wins[h].parent.Some? && Ancestor(wins, top, s, a, wins[h].parent.value))
  }

  lemma {:induction false} RootIsAncestor(wins: Arena, top: seq<Handle>, s: Shape, h: Handle)
    requires Shaped(wins, top, s) && h in wins
    ensures Ancestor(wins, top, s, Root(wins, top, s, h), h)
    ensures Root(wins, top, s, Root(wins, top, s, h)) == Root(wins, top, s, h)
    decreases s.depth[h]
  {
    if wins[h].parent.Some? {
      RootIsAncestor(wins, top, s, wins[h].parent.value);
    }
  }

  /** `is_window`: only the global (top-level) list is searched. */
  function IsWindow(top: seq<Handle>, h: Handle): (r: bool)
  {
    h in top
  }

  lemma IsWindowOnlyTopLevel(wins: Arena, top: seq<Handle>, s: Shape, h: Handle)
    requires Shaped(wins, top, s) && h in wins
    ensures IsWindow(top, h) <==> wins[h].parent.None?
    ensures IsWindow(top, h) <==> Root(wins, top, s, h) == h
  {
  }

  // ---------------------------------------------------------------------
  // do_windows_overlap
  // ---------------------------------------------------------------------

  /** `do_windows_overlap`: strict rectangle intersection of two visible windows. */
  predicate Overlap(a: Window, b: Window) {
    a.visible && b.visible &&
    a.frame.x < b.frame.x + b.frame.w && a.frame.x + a.frame.w > b.frame.x &&
    a.frame.y < b.frame.y + b.frame.h && a.frame.y + a.frame.h > b.frame.y
  }

  lemma OverlapProperties(a: Window, b: Window)
    ensures Overlap(a, b) <==> Overlap(b, a)
    ensures !a.visible || !b.visible ==> !Overlap(a, b)
    ensures a.frame.x + a.frame.w == b.frame.x || a.frame.y + a.frame.h == b.frame.y ==> !Overlap(a, b)
  {
  }

  /** A point both frames contain shows that two visible windows overlap. */
  lemma {:induction false} CommonPointOverlaps(a: Window, b: Window, x: int, y: int)
    requires a.visible && b.visible && Contains(x, y, a.frame) && Contains(x, y, b.frame)
    ensures Overlap(a, b)
  {
  }

  // ---------------------------------------------------------------------
  // get_window_item
  // ---------------------------------------------------------------------

  /** The windows of a sibling list and all their descendants, in depth-first pre-order. */
  ghost function Preorder(wins: Arena, s: Shape, sibs: seq<Handle>, level: nat): (r: seq<Handle>)
    requires Layered(wins, s) && level <= s.height && Level(wins, s, sibs, level)
    ensures forall x | x in r :: x in wins
    decreases s.height - level, |sibs|
  {
    if sibs == [] then []
    else
      var first := sibs[0];
      LayeredChildren(wins, s, first);
      var below := if wins[first].children == [] then [] else
        Preorder(wins, s, wins[first].children, level + 1);
      [first] + below + Preorder(wins, s, sibs[1..], level)
  }

  /** The first window of ws whose id is `id`. */
  function FirstWithId(wins: Arena, ws: seq<Handle>, id: int): (r: Option<Handle>)
    requires forall x | x in ws :: x in wins
    ensures r.Some? ==> r.value in ws && wins[r.value].id == id
  {
    if ws == [] then None
    else if wins[ws[0]].id == id then Some(ws[0])
    else FirstWithId(wins, ws[1..], id)
  }

  /** The search comes back empty exactly when no window of ws carries the id. */
  lemma {:induction false} FirstWithIdNone(wins: Arena, ws: seq<Handle>, id: int)
    requires forall x | x in ws :: x in wins
    ensures FirstWithId(wins, ws, id).None? <==> forall x | x in ws :: wins[x].id != id
  {
    if ws != [] {
      FirstWithIdNone(wins, ws[1..], id);
      assert forall x | x in ws :: x == ws[0] || x in ws[1..];
    }
  }

  /** The loop of `get_window_item` over a sibling list, recursing into each item's children. */
  function ItemIn(wins: Arena, ghost s: Shape, sibs: seq<Handle>, id: int, ghost level: nat): (r: Option<Handle>)
    requires Layered(wins, s) && level <= s.height && Level(wins, s, sibs, level)
    ensures r.Some? ==> r.value in wins && wins[r.value].id == id
    decreases s.height - level, |sibs|
  {
    if sibs == [] then None
    else
      var item := sibs[0];
      if wins[item].id == id then Some(item)
      else
        LayeredChildren(wins, s, item);
        var child := if wins[item].children == [] then None else
          ItemIn(wins, s, wins[item].children, id, level + 1);
        if child.Some? then child else ItemIn(wins, s, sibs[1..], id, level)
  }

  /** The loop finds the first match of the pre-order listing. */
  lemma {:induction false} ItemInIsPreorderSearch(wins: Arena, s: Shape, sibs: seq<Handle>, id: int, level: nat)
    requires Layered(wins, s) && level <= s.height && Level(wins, s, sibs, level)
    ensures ItemIn(wins, s, sibs, id, level) == FirstWithId(wins, Preorder(wins, s, sibs, level), id)
    decreases s.height - level, |sibs|
  {
    if sibs != [] {
      var item := sibs[0];
      var kids := wins[item].children;
      assert item in sibs;
      LayeredChildren(wins, s, item);
      assert Level(wins, s, sibs[1..], level) by {
        assert forall x | x in sibs[1..] :: x in sibs;
      }
      if wins[item].id == id {
        ItemInMatch(wins, s, sibs, id, level);
      } else {
        ItemInIsPreorderSearch(wins, s, sibs[1..], id, level);
        if kids != [] {
          ItemInIsPreorderSearch(wins, s, kids, id, level + 1);
        }
        ItemInCombine(wins, s, sibs, id, level);
      }
    }
  }

  /** The search stops at a matching item, which also heads the pre-order listing. */
  lemma ItemInMatch(wins: Arena, s: Shape, sibs: seq<Handle>, id: int, level: nat)
    requires Layered(wins, s) && level <= s.height && Level(wins, s, sibs, level) && sibs != []
    requires sibs[0] in wins && wins[sibs[0]].id == id
    ensures ItemIn(wins, s, sibs, id, level) == FirstWithId(wins, Preorder(wins, s, sibs, level), id)
  {
    PreorderUnfold(wins, s, sibs, level);
  }

  /** One step of the search: past a non-matching item, its subtree first, then its later siblings. */
  lemma ItemInCombine(wins: Arena, s: Shape, sibs: seq<Handle>, id: int, level: nat)
    requires Layered(wins, s) && level <= s.height && Level(wins, s, sibs, level) && sibs != []
    requires sibs[0] in wins && wins[sibs[0]].id != id && Level(wins, s, sibs[1..], level)
    requires wins[sibs[0]].children != [] ==> s.depth[sibs[0]] < s.height && Level(wins, s, wins[sibs[0]].children, level + 1)
    requires ItemIn(wins, s, sibs[1..], id, level) == FirstWithId(wins, Preorder(wins, s, sibs[1..], level), id)
    requires wins[sibs[0]].children != [] ==>
      ItemIn(wins, s, wins[sibs[0]].children, id, level + 1) == FirstWithId(wins, Preorder(wins, s, wins[sibs[0]].children, level + 1), id)
    ensures ItemIn(wins, s, sibs, id, level) == FirstWithId(wins, Preorder(wins, s, sibs, level), id)
  {
    var item := sibs[0];
    var kids := wins[item].children;
    var rest := Preorder(wins, s, sibs[1..], level);
    PreorderUnfold(wins, s, sibs, level);
    ItemInUnfold(wins, s, sibs, id, level);
    if kids == [] {
      ItemInStep(wins, item, [], rest, id);
      assert [] + rest == rest;
    } else {
      var below := Preorder(wins, s, kids, level + 1);
      ItemInStep(wins, item, below, rest, id);
      FirstWithIdAppend(wins, below, rest, id);
    }
  }

  /** The first of a non-empty sibling list, its children and its later siblings each sit on one level. */
  lemma UnfoldLevels(wins: Arena, s: Shape, sibs: seq<Handle>, level: nat)
    requires Layered(wins, s) && level <= s.height && Level(wins, s, sibs, level) && sibs != []
    ensures sibs[0] in wins && Level(wins, s, sibs[1..], level)
    ensures wins[sibs[0]].children != [] ==> s.depth[sibs[0]] < s.height && Level(wins, s, wins[sibs[0]].children, level + 1)
  {
    assert sibs[0] in sibs;
    LayeredChildren(wins, s, sibs[0]);
  }

  /** The pre-order listing of a non-empty sibling list: the first, its subtree, then the rest. */
  lemma PreorderUnfold(wins: Arena, s: Shape, sibs: seq<Handle>, level: nat)
    requires Layered(wins, s) && level <= s.height && Level(wins, s, sibs, level) && sibs != []
    ensures sibs[0] in wins && Level(wins, s, sibs[1..], level)
    ensures wins[sibs[0]].children != [] ==> s.depth[sibs[0]] < s.height && Level(wins, s, wins[sibs[0]].children, level + 1)
    ensures var kids := wins[sibs[0]].children;
      Preorder(wins, s, sibs, level) ==
        [sibs[0]] + (if kids == [] then [] else Preorder(wins, s, kids, level + 1)) + Preorder(wins, s, sibs[1..], level)
  {
    UnfoldLevels(wins, s, sibs, level);
  }

  lemma ItemInUnfold(wins: Arena, s: Shape, sibs: seq<Handle>, id: int, level: nat)
    requires Layered(wins, s) && level <= s.height && Level(wins, s, sibs, level) && sibs != []
    requires sibs[0] in wins && wins[sibs[0]].id != id
    requires wins[sibs[0]].children != [] ==> s.depth[sibs[0]] < s.height && Level(wins, s, wins[sibs[0]].children, level + 1)
    requires Level(wins, s, sibs[1..], level)
    ensures var kids := wins[sibs[0]].children;
      var child := if kids == [] then None else ItemIn(wins, s, kids, id, level + 1);
      ItemIn(wins, s, sibs, id, level) == if child.Some? then child else ItemIn(wins, s, sibs[1..], id, level)
  {
  }

  lemma ItemInStep(wins: Arena, item: Handle, below: seq<Handle>, rest: seq<Handle>, id: int)
    requires item in wins && forall x | x in below + rest :: x in wins
    requires wins[item].id != id
    ensures FirstWithId(wins, [item] + below + rest, id) == FirstWithId(wins, below + rest, id)
  {
    assert ([item] + below + rest)[0] == item && ([item] + below + rest)[1..] == below + rest;
  }

  lemma {:induction false} FirstWithIdAppend(wins: Arena, a: seq<Handle>, b: seq<Handle>, id: int)
    requires forall x | x in a + b :: x in wins
    ensures FirstWithId(wins, a + b, id) == if FirstWithId(wins, a, id).Some? then FirstWithId(wins, a, id) else FirstWithId(wins, b, id)
  {
    if a == [] {
      assert a + b == b;
    } else {
      assert (a + b)[0] == a[0];
      assert (a + b)[1..] == a[1..] + b;
      assert forall x | x in a[1..] + b :: x in a + b;
      FirstWithIdAppend(wins, a[1..], b, id);
    }
  }

  /**
   * `get_window_item(win, id)`: the first descendant of win, in pre-order,
   * whose id matches.
   */
  function GetWindowItem(wins: Arena, ghost s: Shape, h: Handle, id: int): (r: Option<Handle>)
    requires Layered(wins, s) && h in wins
    ensures r.Some? ==> r.value in wins && wins[r.value].id == id
  {
    LayeredChildren(wins, s, h);
    if wins[h].children == [] then None
    else ItemIn(wins, s, wins[h].children, id, s.depth[h] + 1)
  }

  /** All descendants of h, in depth-first pre-order. */
  ghost function Descendants(wins: Arena, s: Shape, h: Handle): (r: seq<Handle>)
    requires Layered(wins, s) && h in wins
    ensures forall x | x in r :: x in wins
  {
    LayeredChildren(wins, s, h);
    if wins[h].children == [] then [] else Preorder(wins, s, wins[h].children, s.depth[h] + 1)
  }

  /** The search is a pre-order walk: the answer is the first match among the descendants. */
  lemma {:induction false} GetWindowItemIsPreorderSearch(wins: Arena, s: Shape, h: Handle, id: int)
    requires Layered(wins, s) && h in wins
    ensures GetWindowItem(wins, s, h, id) == FirstWithId(wins, Descendants(wins, s, h), id)
  {
    LayeredChildren(wins, s, h);
    if wins[h].children != [] {
      ItemInIsPreorderSearch(wins, s, wins[h].children, id, s.depth[h] + 1);
    }
  }

  // ---------------------------------------------------------------------
  // find_next_tab_stop, find_prev_tab_stop
  // ---------------------------------------------------------------------

  /** A window the keyboard can stop at: not `notabstop`, and a child or visible. */
  predicate TabStop(w: Window) {
    !w.notabstop && (w.parent.Some? || w.visible)
  }

  /**
   * `find_next_tab_stop` applied to the window at sibs[i], whose `next` is
   * sibs[i + 1]; i == |sibs| stands for NULL.
   */
  function NextTabFrom(wins: Arena, top: seq<Handle>, ghost s: Shape, sibs: seq<Handle>, i: nat, allow: bool, ghost level: nat): (r: Option<Handle>)
    requires Shaped(wins, top, s) && i <= |sibs| && level <= s.height && Level(wins, s, sibs, level)
    requires i < |sibs| ==> sibs == Siblings(wins, top, sibs[i])
    ensures r.Some? ==> r.value in wins && TabStop(wins[r.value])
    decreases if allow then 0 else 1, if allow then s.height - level else level, |sibs| - i
  {
    if i == |sibs| then None
    else
      var w := sibs[i];
      ChildrenLevel(wins, top, s, w);
      var inChildren := if wins[w].children == [] then None else
        NextTabFrom(wins, top, s, wins[w].children, 0, true, level + 1);
      if inChildren.Some? then inChildren
      else if TabStop(wins[w]) && allow then Some(w)
      else
        SiblingsLevel(wins, top, s, w);
        var after := NextTabFrom(wins, top, s, sibs, i + 1, true, level);
        if after.Some? then after
        else if allow then None
        else match wins[w].parent
          case None => None
          case Some(p) =>
            SiblingsLevel(wins, top, s, p);
            var psibs := Siblings(wins, top, p);
            NextTabFrom(wins, top, s, psibs, IndexOf(psibs, p), false, level - 1)
  }

  /** `find_next_tab_stop(win, allow_current)`; None is NULL. */
  function FindNextTabStop(wins: Arena, top: seq<Handle>, ghost s: Shape, h: Option<Handle>, allow: bool): (r: Option<Handle>)
    requires Shaped(wins, top, s) && (h.Some? ==> h.value in wins)
    ensures h.None? ==> r.None?
    ensures r.Some? ==> r.value in wins && TabStop(wins[r.value])
  {
    match h
    case None => None
    case Some(w) =>
      SiblingsLevel(wins, top, s, w);
      var sibs := Siblings(wins, top, w);
      NextTabFrom(wins, top, s, sibs, IndexOf(sibs, w), allow, s.depth[w])
  }

  /** A window's children are searched before the window itself and before its later siblings. */
  lemma {:induction false} ChildrenFirst(wins: Arena, top: seq<Handle>, s: Shape, w: Handle, c: Handle, allow: bool)
    requires Shaped(wins, top, s) && w in wins && wins[w].children != [] && c == wins[w].children[0]
    requires c in wins && TabStop(wins[c]) && wins[c].children == []
    ensures FindNextTabStop(wins, top, s, Some(w), allow) == Some(c)
  {
    SiblingsLevel(wins, top, s, w);
    var sibs := Siblings(wins, top, w);
    NextTabIntoChild(wins, top, s, sibs, IndexOf(sibs, w), allow, s.depth[w], c);
  }

  /** Tabbing from the window at sibs[i] enters its first child when that child is a leaf tab stop. */
  lemma NextTabIntoChild(wins: Arena, top: seq<Handle>, s: Shape, sibs: seq<Handle>, i: nat, allow: bool, level: nat, c: Handle)
    requires Shaped(wins, top, s) && i < |sibs| && level <= s.height && Level(wins, s, sibs, level)
    requires sibs == Siblings(wins, top, sibs[i])
    requires sibs[i] in wins && wins[sibs[i]].children != [] && c == wins[sibs[i]].children[0]
    requires c in wins && TabStop(wins[c]) && wins[c].children == []
    ensures NextTabFrom(wins, top, s, sibs, i, allow, level) == Some(c)
  {
    var w := sibs[i];
    ChildrenLevel(wins, top, s, w);
    NextTabAtLeaf(wins, top, s, wins[w].children, level + 1);
  }

  /** An allowed search starting at a childless tab stop stops there. */
  lemma NextTabAtLeaf(wins: Arena, top: seq<Handle>, s: Shape, sibs: seq<Handle>, level: nat)
    requires Shaped(wins, top, s) && 0 < |sibs| && level <= s.height && Level(wins, s, sibs, level)
    requires sibs == Siblings(wins, top, sibs[0])
    requires sibs[0] in wins && TabStop(wins[sibs[0]]) && wins[sibs[0]].children == []
    ensures NextTabFrom(wins, top, s, sibs, 0, true, level) == Some(sibs[0])
  {
  }

  /**
   * Three childless tab stops A, B, C under one parent: tabbing forward
   * goes A to B, B to C, and wraps from C back to A.
   */
  lemma {:induction false} TabCycle(wins: Arena, top: seq<Handle>, s: Shape, parent: Handle)
    requires Shaped(wins, top, s) && parent in wins && |wins[parent].children| == 3 && NoDup(wins[parent].children)
    requires forall c | c in wins[parent].children :: c in wins && TabStop(wins[c]) && wins[c].children == []
    ensures var kids := wins[parent].children;
      && FindNextTabStop(wins, top, s, Some(kids[0]), false) == Some(kids[1])
      && FindNextTabStop(wins, top, s, Some(kids[1]), false) == Some(kids[2])
      && FindNextTabStop(wins, top, s, Some(kids[2]), false) == Some(kids[0])
  {
    var kids := wins[parent].children;
    assert kids[0] in kids && kids[1] in kids && kids[2] in kids;
    ChildrenLevel(wins, top, s, parent);
    var level := s.depth[parent] + 1;
    assert IndexOf(kids, kids[1]) == 1 by {
      assert kids[0] != kids[1];
    }
    assert IndexOf(kids, kids[2]) == 2 by {
      assert kids[0] != kids[2] && kids[1] != kids[2];
      assert kids[1..][1..] == [kids[2]];
    }
    StepToNext(wins, top, s, kids, 0, level);
    StepToNext(wins, top, s, kids, 1, level);
    assert NextTabFrom(wins, top, s, kids, 3, true, level) == None;
    WrapToFirst(wins, top, s, parent, level);
  }

  /** From a childless window that is not taken, the next sibling is next when it is a childless tab stop. */
  lemma {:induction false} StepToNext(wins: Arena, top: seq<Handle>, s: Shape, sibs: seq<Handle>, i: nat, level: nat)
    requires Shaped(wins, top, s) && i + 1 < |sibs| && level <= s.height && Level(wins, s, sibs, level)
    requires sibs == Siblings(wins, top, sibs[i])
    requires wins[sibs[i]].children == [] && wins[sibs[i + 1]].children == [] && TabStop(wins[sibs[i + 1]])
    ensures NextTabFrom(wins, top, s, sibs, i, false, level) == Some(sibs[i + 1])
  {
    SiblingsLevel(wins, top, s, sibs[i]);
    assert NextTabFrom(wins, top, s, sibs, i + 1, true, level) == Some(sibs[i + 1]);
  }

  /** Past the last child, a non-taking step resumes at the parent, whose first child is taken. */
  lemma {:induction false} WrapToFirst(wins: Arena, top: seq<Handle>, s: Shape, parent: Handle, level: nat)
    requires Shaped(wins, top, s) && parent in wins && |wins[parent].children| == 3 && level == s.depth[parent] + 1
    requires forall c | c in wins[parent].children :: c in wins && TabStop(wins[c]) && wins[c].children == []
    requires Level(wins, s, wins[parent].children, level) && level <= s.height
    requires IndexOf(wins[parent].children, wins[parent].children[2]) == 2
    ensures NextTabFrom(wins, top, s, wins[parent].children, 2, false, level) == Some(wins[parent].children[0])
  {
    var kids := wins[parent].children;
    assert kids[0] in kids && kids[2] in kids;
    assert NextTabFrom(wins, top, s, kids, 3, true, level) == None;
    assert NextTabFrom(wins, top, s, kids, 0, true, level) == Some(kids[0]);
    SiblingsLevel(wins, top, s, parent);
    ChildrenLevel(wins, top, s, parent);
    var psibs := Siblings(wins, top, parent);
    assert NextTabFrom(wins, top, s, psibs, IndexOf(psibs, parent), false, s.depth[parent]) == Some(kids[0]);
  }

  /**
   * `find_prev_tab_stop`: a child starts from itself, a top-level window
   * from its forward successor; then successors are followed until the
   * start comes round again. The source loop is unbounded, so the walk is
   * given `fuel` steps; None means the fuel ran out.
   */
  method FindPrevTabStop(wins: Arena, top: seq<Handle>, ghost s: Shape, h: Handle, fuel: nat) returns (r: Option<Option<Handle>>)
    requires Shaped(wins, top, s) && h in wins
    ensures r.Some? ==> r.value.Some? ==> r.value.value in wins
    ensures r.Some? ==> var start := if wins[h].parent.Some? then Some(h) else FindNextTabStop(wins, top, s, Some(h), false);
      (start.None? ==> r.value.None?) &&
      (r.value.Some? ==> FindNextTabStop(wins, top, s, r.value, false) == start)
  {
    var start := if wins[h].parent.Some? then Some(h) else FindNextTabStop(wins, top, s, Some(h), false);
    if start.None? {
      return Some(None);
    }
    var it := start;
    var next := FindNextTabStop(wins, top, s, it, false);
    var steps := 0;
    while next != start
      invariant it.Some? && it.value in wins && next == FindNextTabStop(wins, top, s, it, false)
      invariant next.Some? ==> next.value in wins
      invariant steps <= fuel
      decreases fuel - steps
    {
      if steps == fuel {
        return None;
      }
      if next.None? {
        // find_next_tab_stop(NULL) is NULL forever: the source never leaves the loop.
        return None;
      }
      it, next := next, FindNextTabStop(wins, top, s, next, false);
      steps := steps + 1;
    }
    return Some(it);
  }

  // ---------------------------------------------------------------------
  // handle_mouse and the default WM_HITTEST
  // ---------------------------------------------------------------------

  /**
   * `handle_mouse`: the first child, in list order, containing (x, y)
   * whose procedure (`accepts`) returns true; the source returns whether
   * there is one.
   */
  function HandleMouse(wins: Arena, kids: seq<Handle>, x: int, y: int, accepts: Handle -> bool): (r: Option<Handle>)
    requires forall c | c in kids :: c in wins
    ensures r.Some? ==> r.value in kids && Contains(x, y, wins[r.value].frame) && accepts(r.value)
    ensures r.None? <==> forall c | c in kids :: !(Contains(x, y, wins[c].frame) && accepts(c))
  {
    if kids == [] then None
    else if Contains(x, y, wins[kids[0]].frame) && accepts(kids[0]) then Some(kids[0])
    else HandleMouse(wins, kids[1..], x, y, accepts)
  }

  /** It stops at the first accepting child: no earlier child both contains the point and accepts. */
  lemma {:induction false} HandleMouseStopsAtFirst(wins: Arena, kids: seq<Handle>, x: int, y: int, accepts: Handle -> bool)
    requires forall c | c in kids :: c in wins
    requires HandleMouse(wins, kids, x, y, accepts).Some?
    ensures var k := IndexOf(kids, HandleMouse(wins, kids, x, y, accepts).value);
      forall j | 0 <= j < k :: !(Contains(x, y, wins[kids[j]].frame) && accepts(kids[j]))
  {
    if Contains(x, y, wins[kids[0]].frame) && accepts(kids[0]) {
    } else {
      var r := HandleMouse(wins, kids[1..], x, y, accepts).value;
      HandleMouseStopsAtFirst(wins, kids[1..], x, y, accepts);
      assert kids[0] != r;
      IndexOfTail(kids, r);
    }
  }

  lemma {:induction false} IndexOfTail(s: seq<Handle>, x: Handle)
    requires |s| > 0 && x in s[1..] && s[0] != x
    ensures IndexOf(s, x) == 1 + IndexOf(s[1..], x)
  {
  }

  /** A child the default hit-test can report: a tab stop whose frame holds the point. */
  predicate Hit(w: Window, x: int, y: int) {
    !w.notabstop && Contains(x, y, w.frame)
  }

  /**
   * The default WM_HITTEST: the last child, in list order, that is not
   * `notabstop` and contains (x, y); None leaves `*lparam` unchanged.
   */
  function HitTest(wins: Arena, kids: seq<Handle>, x: int, y: int): (r: Option<Handle>)
    requires forall c | c in kids :: c in wins
    ensures r.Some? ==> r.value in kids && Hit(wins[r.value], x, y)
    ensures r.None? <==> forall c | c in kids :: !Hit(wins[c], x, y)
  {
    if kids == [] then None
    else if Hit(wins[kids[|kids| - 1]], x, y) then Some(kids[|kids| - 1])
    else
      assert forall c | c in kids[..|kids| - 1] :: c in kids;
      var r := HitTest(wins, kids[..|kids| - 1], x, y);
      assert forall c | c in kids :: c in kids[..|kids| - 1] || c == kids[|kids| - 1];
      r
  }

  /** The reported child is the last one hit: when kids[i] is hit and every later child misses, kids[i] is reported. */
  lemma {:induction false} HitTestIsLast(wins: Arena, kids: seq<Handle>, i: nat, x: int, y: int)
    requires forall c | c in kids :: c in wins
    requires i < |kids| && Hit(wins[kids[i]], x, y)
    requires forall j | i < j < |kids| :: !Hit(wins[kids[j]], x, y)
    ensures HitTest(wins, kids, x, y) == Some(kids[i])
  {
    var n := |kids|;
    if i < n - 1 {
      var front := kids[..n - 1];
      assert forall c | c in front :: c in kids;
      assert !Hit(wins[kids[n - 1]], x, y);
      forall j | i < j < n - 1 ensures !Hit(wins[front[j]], x, y) {
        assert front[j] == kids[j];
      }
      assert front[i] == kids[i];
      HitTestIsLast(wins, front, i, x, y);
    }
  }
}
