/**
 * What stays true of the window globals of user/window.c and the queue
 * and hooks of user/message.c while windows come and go: the queue and
 * the hooks only name live windows, and the list edits keep the forest
 * linked. A window whose destruction is under way is "dying": it is no
 * longer in the global list and nothing may name it any more.
 */
module State {
  import opened Wrappers
  import opened User
  import opened Tree
  import opened Queue
  import opened Hooks
  import opened Windows

  /** A window pointer the desktop may hold: NULL or a live window. */
  predicate Alive(g: Option<Handle>, wins: Arena, dying: set<Handle>) {
    g.Some? ==> g.value in wins && g.value !in dying
  }

  /** A message may stay queued: cleared, the stencil dummy, or for a live window. */
  predicate Addressable(m: Msg, wins: Arena, dying: set<Handle>) {
    m.target.None? || m.target.value == STENCIL_TARGET || (m.target.value in wins && m.target.value !in dying)
  }

  /** Every pending message is deliverable. */
  predicate Addressed(p: seq<Msg>, wins: Arena, dying: set<Handle>) {
    forall m | m in p :: Addressable(m, wins, dying)
  }

  /** Every hook with an owner belongs to a live window. */
  predicate Owned(hs: seq<Hook>, wins: Arena, dying: set<Handle>) {
    forall k | k in hs :: Alive(k.userdata, wins, dying)
  }

  /** Clearing targets keeps a queue addressed. */
  lemma AddressedCoalesce(p: seq<Msg>, t: Option<Handle>, k: int, wins: Arena, dying: set<Handle>)
    requires Addressed(p, wins, dying)
    ensures Addressed(Coalesce(p, t, k), wins, dying)
  {
    var c := Coalesce(p, t, k);
    forall m | m in c ensures Addressable(m, wins, dying) {
      var i :| 0 <= i < |c| && c[i] == m;
      assert p[i] in p;
    }
  }

  /** Posting deliverable messages keeps a queue addressed. */
  lemma {:induction false} AddressedPosts(p: seq<Msg>, ms: seq<Msg>, wins: Arena, dying: set<Handle>)
    requires |p| < QUEUE_SIZE && Addressed(p, wins, dying)
    requires forall m | m in ms :: Addressable(m, wins, dying)
    ensures Addressed(AfterPosts(p, ms), wins, dying)
    decreases |ms|
  {
    if ms != [] {
      var p' := AfterPost(p, ms[0]);
      if |p| < QUEUE_SIZE - 1 {
        AddressedCoalesce(p, ms[0].target, ms[0].kind, wins, dying);
      }
      assert ms[0] in ms;
      assert forall m | m in ms[1..] :: m in ms;
      AddressedPosts(p', ms[1..], wins, dying);
    }
  }

  /** After the purge of h the queue no longer names h. */
  lemma AddressedPurge(p: seq<Msg>, h: Handle, wins: Arena, dying: set<Handle>)
    requires Addressed(p, wins, dying)
    ensures Addressed(Purge(p, h), wins, dying + {h})
  {
    var c := Purge(p, h);
    forall m | m in c ensures Addressable(m, wins, dying + {h}) {
      var i :| 0 <= i < |c| && c[i] == m;
      assert p[i] in p;
    }
  }

  /** Anything that names only windows live in one state names only windows live in another with more of them alive. */
  lemma Survivors(p: seq<Msg>, hs: seq<Hook>, wins: Arena, dying: set<Handle>, wins': Arena, dying': set<Handle>)
    requires forall x | x in wins && x !in dying :: x in wins' && x !in dying'
    ensures Addressed(p, wins, dying) ==> Addressed(p, wins', dying')
    ensures Owned(hs, wins, dying) ==> Owned(hs, wins', dying')
    ensures forall g | Alive(g, wins, dying) :: Alive(g, wins', dying')
  {
  }

  // ---------------------------------------------------------------------
  // The forest under the list edits
  // ---------------------------------------------------------------------

  /** Changing a window's fields other than its links keeps the forest. */
  lemma LinkedUpdate(wins: Arena, top: seq<Handle>, s: Shape, h: Handle, w: Window, dying: set<Handle>)
    requires Linked(wins, top, s) && RootedExcept(wins, top, dying) && h in wins
    requires w.parent == wins[h].parent && w.children == wins[h].children
    ensures Linked(wins[h := w], top, s) && RootedExcept(wins[h := w], top, dying)
  {
    var wins' := wins[h := w];
    assert wins'.Keys == wins.Keys;
    LinksAgree(wins, wins', top, s, dying);
  }

  /** Two arenas with the same windows and the same links are forests alike. */
  lemma LinksAgree(wins: Arena, wins': Arena, top: seq<Handle>, s: Shape, dying: set<Handle>)
    requires Linked(wins, top, s) && RootedExcept(wins, top, dying)
    requires wins'.Keys == wins.Keys
    requires forall x | x in wins :: wins'[x].parent == wins[x].parent && wins'[x].children == wins[x].children
    ensures Linked(wins', top, s) && RootedExcept(wins', top, dying)
  {
    forall x, c | x in wins' && c in wins'[x].children
      ensures c in wins' && s.depth[c] == s.depth[x] + 1 && wins'[c].parent == Some(x)
    {
      assert c in wins[x].children;
    }
    assert Layered(wins', s);
    forall x | x in wins' && wins'[x].parent.Some?
      ensures wins'[x].parent.value in wins' && x in wins'[wins'[x].parent.value].children
    {
      assert x in wins[wins[x].parent.value].children;
    }
  }

  /** Leaving the global list (the window becomes dying) keeps the forest. */
  lemma LinkedUnlist(wins: Arena, top: seq<Handle>, s: Shape, h: Handle, dying: set<Handle>)
    requires Linked(wins, top, s) && RootedExcept(wins, top, dying)
    ensures Linked(wins, RemoveFromGlobalList(top, h), s)
    ensures RootedExcept(wins, RemoveFromGlobalList(top, h), dying + {h})
  {
    var top' := RemoveFromGlobalList(top, h);
    assert forall x | x in top' :: x in top;
  }

  /** Reordering the global list keeps the forest. */
  lemma LinkedReorder(wins: Arena, top: seq<Handle>, top': seq<Handle>, s: Shape, dying: set<Handle>)
    requires Linked(wins, top, s) && RootedExcept(wins, top, dying)
    requires NoDup(top') && multiset(top') == multiset(top)
    ensures Linked(wins, top', s) && RootedExcept(wins, top', dying)
  {
    forall x ensures x in top' <==> x in top {
      assert x in top' <==> x in multiset(top');
      assert x in top <==> x in multiset(top);
    }
  }

  /** A new top-level window, at depth 0 and at the end of the list. */
  lemma LinkedAddTop(wins: Arena, top: seq<Handle>, s: Shape, h: Handle, w: Window, dying: set<Handle>)
    requires Linked(wins, top, s) && RootedExcept(wins, top, dying)
    requires h !in wins && h != STENCIL_TARGET && w.parent.None? && w.children == []
    ensures Linked(wins[h := w], top + [h], Shape(s.depth[h := 0], s.height))
    ensures RootedExcept(wins[h := w], top + [h], dying)
  {
    var wins' := wins[h := w];
    var s' := Shape(s.depth[h := 0], s.height);
    assert h !in top;
    assert forall x | x in wins :: x != h;
    forall i, j | 0 <= i < j < |top| + 1 ensures (top + [h])[i] != (top + [h])[j] {
      if j == |top| {
        assert (top + [h])[i] == top[i] && top[i] in top;
      } else {
        assert (top + [h])[i] == top[i] && (top + [h])[j] == top[j];
      }
    }
    assert forall x, c | x in wins' && c in wins'[x].children :: x in wins && c in wins[x].children;
    assert Layered(wins', s');
  }

  /** A new last child of p, one level below it. */
  lemma LinkedAddChild(wins: Arena, top: seq<Handle>, s: Shape, p: Handle, wp: Window, h: Handle, w: Window, dying: set<Handle>)
    requires Linked(wins, top, s) && RootedExcept(wins, top, dying)
    requires p in wins && h !in wins && h != STENCIL_TARGET && w.parent == Some(p) && w.children == []
    requires wp.parent == wins[p].parent && wp.children == wins[p].children + [h]
    ensures var d := s.depth[p] + 1;
      && Linked(wins[h := w][p := wp], top, Shape(s.depth[h := d], if d > s.height then d else s.height))
      && RootedExcept(wins[h := w][p := wp], top, dying)
  {
    var d := s.depth[p] + 1;
    var wins' := wins[h := w][p := wp];
    var s' := Shape(s.depth[h := d], if d > s.height then d else s.height);
    AddChildLayered(wins, top, s, p, wp, h, w);
    AddChildParents(wins, top, s, p, wp, h, w);
    AddChildRest(wins, top, s, p, wp, h, w, wins', s');
    forall x | x in wins' && wins'[x].parent.None? && x !in dying ensures x in top {
      assert x != h && wins[x].parent.None?;
    }
  }

  lemma AddChildRest(wins: Arena, top: seq<Handle>, s: Shape, p: Handle, wp: Window, h: Handle, w: Window, wins': Arena, s': Shape)
    requires s.depth.Keys == wins.Keys && STENCIL_TARGET !in wins && NoDup(top)
    requires forall x {:trigger x in top} | x in top :: x in wins && wins[x].parent.None?
    requires forall x {:trigger wins[x].parent} | x in wins && wins[x].parent.None? :: s.depth[x] == 0
    requires p in wins && h !in wins && h != STENCIL_TARGET && w.parent == Some(p)
    requires wp.parent == wins[p].parent
    requires wins' == wins[h := w][p := wp] && s' == Shape(s.depth[h := s.depth[p] + 1], s'.height)
    requires Layered(wins', s')
    requires forall x, c {:trigger c in wins'[x].children} | x in wins' && c in wins'[x].children :: wins'[c].parent == Some(x)
    requires forall x {:trigger wins'[x].parent} | x in wins' && wins'[x].parent.Some? ::
        wins'[x].parent.value in wins' && x in wins'[wins'[x].parent.value].children
    ensures Linked(wins', top, s')
  {
    assert wins'.Keys == wins.Keys + {h};
    assert s'.depth.Keys == wins'.Keys;
    forall x | x in wins' && wins'[x].parent.None? ensures s'.depth[x] == 0 {
      assert x != h && wins[x].parent.None?;
    }
    forall x | x in top ensures x in wins' && wins'[x].parent.None? {
      assert x in wins && x != h;
    }
  }

  lemma AddChildLayered(wins: Arena, top: seq<Handle>, s: Shape, p: Handle, wp: Window, h: Handle, w: Window)
    requires Linked(wins, top, s)
    requires p in wins && h !in wins && w.parent == Some(p) && w.children == []
    requires wp.parent == wins[p].parent && wp.children == wins[p].children + [h]
    ensures var d := s.depth[p] + 1; var wins' := wins[h := w][p := wp];
      var s' := Shape(s.depth[h := d], if d > s.height then d else s.height);
      && Layered(wins', s')
      && (forall x, c {:trigger c in wins'[x].children} | x in wins' && c in wins'[x].children :: wins'[c].parent == Some(x))
  {
    var d := s.depth[p] + 1;
    var wins' := wins[h := w][p := wp];
    var s' := Shape(s.depth[h := d], if d > s.height then d else s.height);
    assert forall x | x in wins :: x != h;
    forall x, c | x in wins' && c in wins'[x].children
      ensures c in wins' && s'.depth[c] == s'.depth[x] + 1 && wins'[c].parent == Some(x)
    {
      if x == p {
        assert c in wins[p].children || c == h;
      } else {
        assert x in wins && c in wins[x].children;
      }
    }
    forall x | x in wins' ensures x in s'.depth && s'.depth[x] <= s'.height {
    }
  }

  lemma AddChildParents(wins: Arena, top: seq<Handle>, s: Shape, p: Handle, wp: Window, h: Handle, w: Window)
    requires Linked(wins, top, s)
    requires p in wins && h !in wins && w.parent == Some(p) && w.children == []
    requires wp.parent == wins[p].parent && wp.children == wins[p].children + [h]
    ensures var wins' := wins[h := w][p := wp];
      forall x {:trigger wins'[x].parent} | x in wins' && wins'[x].parent.Some? ::
        wins'[x].parent.value in wins' && x in wins'[wins'[x].parent.value].children
  {
    var wins' := wins[h := w][p := wp];
    forall x | x in wins' && wins'[x].parent.Some?
      ensures wins'[x].parent.value in wins' && x in wins'[wins'[x].parent.value].children
    {
      if x != h {
        var q := wins[x].parent.value;
        assert x in wins[q].children;
      }
    }
  }

  /** s without any occurrence of x. */
  function Erase(s: seq<Handle>, x: Handle): (r: seq<Handle>)
    ensures x !in r && |r| <= |s| && (x in s ==> |r| < |s|)
    ensures forall y | y in s && y != x :: y in r
    ensures forall y | y in r :: y in s
  {
    if s == [] then []
    else if s[0] == x then Erase(s[1..], x)
    else [s[0]] + Erase(s[1..], x)
  }

  /** The arena once a childless window that is off the global list is freed and unlinked from its parent. */
  function Unlinked(wins: Arena, h: Handle): (r: Arena)
    requires h in wins
    ensures r.Keys == wins.Keys - {h}
  {
    var w := wins[h];
    if w.parent.Some? && w.parent.value in wins && w.parent.value != h then
      var p := w.parent.value;
      (wins - {h})[p := wins[p].(children := Erase(wins[p].children, h))]
    else wins - {h}
  }

  /** Freeing a childless window that is off the global list keeps the forest. */
  lemma LinkedRemoveLeaf(wins: Arena, top: seq<Handle>, s: Shape, h: Handle, dying: set<Handle>)
    requires Linked(wins, top, s) && RootedExcept(wins, top, dying)
    requires h in wins && wins[h].children == [] && h !in top
    ensures Linked(Unlinked(wins, h), top, Shape(s.depth - {h}, s.height))
    ensures RootedExcept(Unlinked(wins, h), top, dying - {h})
  {
    var wins' := Unlinked(wins, h);
    var s' := Shape(s.depth - {h}, s.height);
    assert forall x | x in wins' :: wins'[x].parent == wins[x].parent;
    forall x, c | x in wins' && c in wins'[x].children
      ensures c in wins' && s'.depth[c] == s'.depth[x] + 1 && wins'[c].parent == Some(x)
    {
      assert c in wins[x].children && c != h;
    }
    forall x | x in wins' && wins'[x].parent.Some?
      ensures wins'[x].parent.value in wins' && x in wins'[wins'[x].parent.value].children
    {
      var p := wins[x].parent.value;
      assert x in wins[p].children;
      if p == h {
        assert false;
      }
    }
    assert Layered(wins', s');
  }

  // ---------------------------------------------------------------------
  // Descent
  // ---------------------------------------------------------------------

  /** w is a, or a descendant of a: following `parent` from w reaches a. */
  ghost predicate Below(wins: Arena, s: Shape, a: Handle, w: Handle)
    decreases if w in s.depth then s.depth[w] else 0
  {
    && w in wins && w in s.depth
    && (w == a
        || (&& wins[w].parent.Some?
            && wins[w].parent.value in s.depth
            && s.depth[wins[w].parent.value] < s.depth[w]
            && Below(wins, s, a, wins[w].parent.value)))
  }

  /** In a linked forest nothing lies below a window that is gone. */
  lemma {:induction false} NoOrphans(wins: Arena, top: seq<Handle>, s: Shape, h: Handle, w: Handle)
    requires Linked(wins, top, s) && h !in wins
    ensures !Below(wins, s, h, w)
    decreases if w in s.depth then s.depth[w] else 0
  {
    if w in wins && w != h && wins[w].parent.Some? {
      var p := wins[w].parent.value;
      if p in s.depth && s.depth[p] < s.depth[w] {
        NoOrphans(wins, top, s, h, p);
      }
    }
  }

  /** Descent is read off the parent links and depths of the windows on the way. */
  lemma {:induction false} BelowTransfer(wins: Arena, s: Shape, wins': Arena, s': Shape, a: Handle, w: Handle)
    requires Below(wins, s, a, w)
    requires forall x | x in wins && x in wins' :: wins'[x].parent == wins[x].parent
    requires forall x | x in wins && x in s'.depth :: x in s.depth && s'.depth[x] == s.depth[x]
    requires forall x | x in wins' :: x in s'.depth
    requires forall x | x in wins && x in wins' && wins[x].parent.Some? :: wins[x].parent.value in wins'
    requires w in wins'
    ensures Below(wins', s', a, w)
    decreases s.depth[w]
  {
    if w != a {
      var p := wins[w].parent.value;
      BelowTransfer(wins, s, wins', s', a, p);
    }
  }

  /** What lies below a child lies below its parent. */
  lemma {:induction false} BelowParent(wins: Arena, s: Shape, h: Handle, c: Handle, w: Handle)
    requires Below(wins, s, c, w) && c in wins && wins[c].parent == Some(h)
    requires h in wins && h in s.depth && c in s.depth && s.depth[h] < s.depth[c]
    ensures Below(wins, s, h, w)
    decreases s.depth[w]
  {
    if w != c {
      BelowParent(wins, s, h, c, wins[w].parent.value);
    }
  }

  /** Descent never climbs: whatever lies below a is at least as deep. */
  lemma {:induction false} BelowDeeper(wins: Arena, s: Shape, a: Handle, w: Handle)
    requires Below(wins, s, a, w)
    ensures a in s.depth && s.depth[a] <= s.depth[w]
    decreases s.depth[w]
  {
    if w != a {
      BelowDeeper(wins, s, a, wins[w].parent.value);
    }
  }

  /** In a linked forest, a window strictly below h lies below one of h's children. */
  lemma {:induction false} BelowChild(wins: Arena, top: seq<Handle>, s: Shape, h: Handle, w: Handle)
    requires Linked(wins, top, s) && h in wins && Below(wins, s, h, w) && w != h
    ensures wins[h].children != []
    decreases s.depth[w]
  {
    var p := wins[w].parent.value;
    if p == h {
      assert w in wins[h].children;
    } else {
      BelowChild(wins, top, s, h, p);
    }
  }

  // ---------------------------------------------------------------------
  // Destruction of a subtree
  // ---------------------------------------------------------------------

  /**
   * The arena after `destroy_window(h)`: the windows below h (h included)
   * are gone; every other window keeps its entry and its depth, except
   * that h's parent no longer lists h.
   */
  ghost predicate Pruned(w0: Arena, s0: Shape, w: Arena, s: Shape, h: Handle)
    requires h in w0
  {
    && (forall x :: x in w <==> x in w0 && !Below(w0, s0, h, x))
    && s.height == s0.height
    && (forall x | x in w :: x in s.depth && x in s0.depth && s.depth[x] == s0.depth[x])
    && (forall x | x in w && Some(x) != w0[h].parent :: w[x] == w0[x])
    && (forall p | Some(p) == w0[h].parent && p in w :: w[p] == w0[p].(children := Erase(w0[p].children, h)))
  }

  /**
   * Part way through `clear_window_children(h)`: some of the windows
   * below h are gone, all others are there with the entries and depths
   * they had, and h itself has only lost children.
   */
  ghost predicate Clearing(w0: Arena, s0: Shape, w: Arena, s: Shape, h: Handle)
  {
    && h in w && h in w0
    && (forall x | x in w0 :: x in s0.depth)
    && (forall x | x in w :: x in w0)
    && (forall x | x in w0 && !Below(w0, s0, h, x) :: x in w)
    && s.height == s0.height
    && (forall x | x in w :: x in s.depth && x in s0.depth && s.depth[x] == s0.depth[x])
    && (forall x | x in w && x != h :: w[x] == w0[x])
    && w[h].parent == w0[h].parent
  }

  /** Destroying a child of h is a step of the clearing. */
  lemma ClearStep(w0: Arena, s0: Shape, w: Arena, s: Shape, w': Arena, s': Shape, top: seq<Handle>, h: Handle, c: Handle)
    requires Clearing(w0, s0, w, s, h) && Linked(w, top, s)
    requires c in w[h].children && Pruned(w, s, w', s', c)
    ensures Clearing(w0, s0, w', s', h)
  {
    ChildGone(w, s, w', s', top, h, c);
    forall x | x in w0 && !Below(w0, s0, h, x) ensures x in w' {
      OutsideChild(w0, s0, w, s, top, h, c, x);
    }
  }

  /** A window outside h's subtree is outside the subtree of each child of h. */
  lemma OutsideChild(w0: Arena, s0: Shape, w: Arena, s: Shape, top: seq<Handle>, h: Handle, c: Handle, x: Handle)
    requires Clearing(w0, s0, w, s, h) && Linked(w, top, s) && c in w[h].children
    requires x in w0 && !Below(w0, s0, h, x)
    ensures x in w && !Below(w, s, c, x)
  {
    if Below(w, s, c, x) {
      BelowParent(w, s, h, c, x);
      BelowTransfer(w, s, w0, s0, h, x);
    }
  }

  /** A child of h reaches none of the dying windows outside h's subtree, nor h itself. */
  lemma OutsideChildren(w0: Arena, s0: Shape, w: Arena, s: Shape, top: seq<Handle>, h: Handle, c: Handle, dying: set<Handle>)
    requires Clearing(w0, s0, w, s, h) && Linked(w, top, s) && c in w[h].children
    requires forall d | d in dying :: d in w0 && !Below(w0, s0, h, d)
    ensures forall d | d in dying + {h} :: !Below(w, s, c, d)
    ensures c in w && c != h && c !in dying && c !in top
    ensures s.depth[c] == s0.depth[h] + 1 <= s.height
  {
    forall d | d in dying ensures !Below(w, s, c, d) {
      OutsideChild(w0, s0, w, s, top, h, c, d);
    }
    assert s.depth[c] == s.depth[h] + 1 && w[c].parent == Some(h);
    if Below(w, s, c, h) {
      BelowDeeper(w, s, c, h);
    }
    assert Below(w, s, c, c);
  }

  /** Destroying a child of h leaves h, without that child. */
  lemma ChildGone(w: Arena, s: Shape, w': Arena, s': Shape, top: seq<Handle>, h: Handle, c: Handle)
    requires Linked(w, top, s) && h in w && c in w[h].children && Pruned(w, s, w', s', c)
    ensures h in w' && w'[h] == w[h].(children := Erase(w[h].children, c))
    ensures |w'[h].children| < |w[h].children|
  {
    assert s.depth[c] == s.depth[h] + 1 && w[c].parent == Some(h);
    if Below(w, s, c, h) {
      BelowDeeper(w, s, c, h);
    }
  }

  /** Once h has no children left, freeing it completes the destruction. */
  lemma ClearDone(w0: Arena, s0: Shape, w: Arena, s: Shape, top: seq<Handle>, h: Handle)
    requires Clearing(w0, s0, w, s, h) && Linked(w, top, s) && w[h].children == []
    ensures Pruned(w0, s0, Unlinked(w, h), Shape(s.depth - {h}, s.height), h)
  {
    var w' := Unlinked(w, h);
    forall x | x in w && x != h ensures !Below(w0, s0, h, x) {
      if Below(w0, s0, h, x) {
        BelowTransfer(w0, s0, w, s, h, x);
        BelowChild(w, top, s, h, x);
      }
    }
    assert Below(w0, s0, h, h);
  }

  /** A message deliverable in a smaller arena with more windows dying is deliverable here. */
  lemma AddressedWeaker(p: seq<Msg>, w1: Arena, d1: set<Handle>, w0: Arena, d0: set<Handle>)
    requires Addressed(p, w1, d1) && w1.Keys <= w0.Keys && d0 <= d1
    ensures Addressed(p, w0, d0)
  {
    forall m | m in p ensures Addressable(m, w0, d0) {
      assert Addressable(m, w1, d1);
    }
  }

  /** Deliverable messages name no window that is gone or dying. */
  lemma AddressedAvoids(p: seq<Msg>, wins: Arena, dying: set<Handle>, gone: set<Handle>)
    requires Addressed(p, wins, dying) && STENCIL_TARGET !in gone
    requires forall g | g in gone :: g !in wins || g in dying
    ensures Avoids(p, gone)
  {
    forall m | m in p ensures m.target.None? || m.target.value !in gone {
      assert Addressable(m, wins, dying);
    }
  }
}
