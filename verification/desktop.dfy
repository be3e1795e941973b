/**
 * The window globals of user/window.c and kernel/event.c as one object:
 * the window arena, the global (top-level) list, the three exclusive
 * pointers `_focused`, `_captured` and `_tracked`, the message queue and
 * the hook list of user/message.c, and the operations that update them.
 *
 * Window procedures are not run: what a procedure returns for a message is
 * given by `procs`, and what it does besides is outside the model. The
 * defaults `send_message` applies when a procedure returns 0 are modelled.
 */
module Desktop {
  import opened Wrappers
  import opened Words
  import opened Messages
  import opened User
  import opened Draw
  import opened Tree
  import opened Queue
  import opened Hooks
  import opened Windows
  import opened State

  /** What each window procedure returns for a message and its `wparam`. */
  type Reply = (Handle, int, U32) -> int

  /**
   * What one `send_message` did: the value it returned, the hooks it
   * called in order, the child WM_HITTEST stored into `*lparam`, the
   * idents sent TB_BUTTONCLICK, the children whose procedure was called
   * with WM_PAINT and the rectangle WM_PAINTSTENCIL filled.
   */
  datatype Sent = Sent(value: int, hooks: seq<Hook>, hit: Option<Handle>, clicks: seq<int>,
                       painted: seq<Handle>, stencil: Option<Rect>)

  const Nothing: Sent := Sent(0, [], None, [], [], None)

  /** A top-level window `find_window` considers: visible, and its frame grown upward by the bars holds the point. */
  predicate Catches(w: Window, x: int, y: int) {
    var t := TitlebarHeight(w.flags);
    w.visible && Contains(x, y, Rect(w.frame.x, w.frame.y - t, w.frame.w, w.frame.h + t))
  }

  /** The `wparam` of the WM_HITTEST `find_window` sends: the point relative to the frame, 16 bits each. */
  function HitParam(w: Window, x: int, y: int): U32 {
    MakeDword(x - w.frame.x, y - w.frame.y)
  }

  /**
   * What `find_window` settles on once w catches the point: w itself,
   * unless w is enabled and its WM_HITTEST default found a child.
   */
  function Answer(wins: Arena, w: Handle, x: int, y: int, procs: Reply): (r: Option<Handle>)
    requires w in wins && forall c | c in wins[w].children :: c in wins
    ensures r == Some(w) || (r.Some? && r.value in wins[w].children)
  {
    var p := HitParam(wins[w], x, y);
    if wins[w].disabled || procs(w, WM_HITTEST, p) != 0 then Some(w)
    else
      match HitTest(wins, wins[w].children, LoWord(p), HiWord(p))
      case None => Some(w)
      case Some(c) => Some(c)
  }

  /** `find_window` over the list ts: the answer of the last window that catches the point. */
  function Found(wins: Arena, ts: seq<Handle>, x: int, y: int, procs: Reply): (r: Option<Handle>)
    requires forall t | t in ts :: t in wins && forall c | c in wins[t].children :: c in wins
    decreases |ts|
  {
    if ts == [] then None
    else
      var w := ts[|ts| - 1];
      assert forall t | t in ts[..|ts| - 1] :: t in ts;
      if Catches(wins[w], x, y) then Answer(wins, w, x, y, procs)
      else Found(wins, ts[..|ts| - 1], x, y, procs)
  }

  /**
   * `find_window` returns NULL exactly when no window catches the point;
   * otherwise its answer comes from the last window that does, and is
   * that window or one of its children.
   */
  /** `find_window` returns NULL exactly when no window in ts catches the point. */
  lemma {:induction false} FoundNone(wins: Arena, ts: seq<Handle>, x: int, y: int, procs: Reply)
    requires forall t | t in ts :: t in wins && forall c | c in wins[t].children :: c in wins
    ensures Found(wins, ts, x, y, procs).None? <==> forall i | 0 <= i < |ts| :: !Catches(wins[ts[i]], x, y)
    decreases |ts|
  {
    if ts != [] {
      var n := |ts|;
      var front := ts[..n - 1];
      assert forall t | t in front :: t in ts;
      FoundNone(wins, front, x, y, procs);
      if !Catches(wins[ts[n - 1]], x, y) {
        assert forall i | 0 <= i < n - 1 :: front[i] == ts[i];
      }
    }
  }

  /** When ts[i] is the last window that catches the point, `find_window` answers with it. */
  lemma {:induction false} FoundAt(wins: Arena, ts: seq<Handle>, i: nat, x: int, y: int, procs: Reply)
    requires forall t | t in ts :: t in wins && forall c | c in wins[t].children :: c in wins
    requires i < |ts| && Catches(wins[ts[i]], x, y)
    requires forall j | i < j < |ts| :: !Catches(wins[ts[j]], x, y)
    ensures Found(wins, ts, x, y, procs) == Answer(wins, ts[i], x, y, procs)
    decreases |ts|
  {
    var n := |ts|;
    if i < n - 1 {
      var front := ts[..n - 1];
      assert forall t | t in front :: t in ts;
      assert !Catches(wins[ts[n - 1]], x, y);
      forall j | i < j < n - 1 ensures !Catches(wins[front[j]], x, y) {
        assert front[j] == ts[j];
      }
      assert front[i] == ts[i];
      FoundAt(wins, front, i, x, y, procs);
    }
  }

  /**
   * `find_window` returns NULL exactly when no window catches the point;
   * otherwise its answer comes from the last window that does, and is
   * that window or one of its children.
   */
  lemma FoundIsLastCatcher(wins: Arena, ts: seq<Handle>, x: int, y: int, procs: Reply)
    requires forall t | t in ts :: t in wins && forall c | c in wins[t].children :: c in wins
    ensures Found(wins, ts, x, y, procs).None? <==> forall i | 0 <= i < |ts| :: !Catches(wins[ts[i]], x, y)
    ensures forall i | 0 <= i < |ts| && Catches(wins[ts[i]], x, y) && (forall j | i < j < |ts| :: !Catches(wins[ts[j]], x, y)) ::
      Found(wins, ts, x, y, procs) == Answer(wins, ts[i], x, y, procs)
  {
    FoundNone(wins, ts, x, y, procs);
    forall i | 0 <= i < |ts| && Catches(wins[ts[i]], x, y) && (forall j | i < j < |ts| :: !Catches(wins[ts[j]], x, y))
      ensures Found(wins, ts, x, y, procs) == Answer(wins, ts[i], x, y, procs)
    {
      FoundAt(wins, ts, i, x, y, procs);
    }
  }

  lemma Snoc(s: seq<Handle>, i: nat)
    requires i < |s|
    ensures s[..i + 1] == s[..i] + [s[i]]
  {
  }

  lemma PrefixIn(s: seq<Handle>, n: nat)
    requires n <= |s|
    ensures forall u | u in s[..n] :: u in s
  {
    forall u | u in s[..n] ensures u in s {
      var k :| 0 <= k < n && s[..n][k] == u;
      assert s[k] == u;
    }
  }

  /** The frame `resize_window` leaves: a non-positive request keeps that dimension. */
  function Resized(f: Rect, width: int, height: int): (r: Rect)
    ensures r.x == f.x && r.y == f.y
    ensures width > 0 ==> r.w == width
    ensures width <= 0 ==> r.w == f.w
    ensures height > 0 ==> r.h == height
    ensures height <= 0 ==> r.h == f.h
  {
    Rect(f.x, f.y, if width > 0 then width else f.w, if height > 0 then height else f.h)
  }

  /** Two updates of one handle leave the second. */
  lemma UpdateTwice(m: Arena, h: Handle, a: Window, b: Window)
    ensures m[h := a][h := b] == m[h := b]
  {
  }

  /** Updates of two different handles commute. */
  lemma UpdateSwap(m: Arena, h: Handle, p: Handle, a: Window, b: Window, c: Window)
    requires h != p
    ensures m[h := a][p := b][h := c] == m[h := c][p := b]
  {
  }

  /** A global after h is released: None if it named h. */
  function Cleared(g: Option<Handle>, h: Handle): (r: Option<Handle>)
    ensures r != Some(h) && (r == g || r.None?)
    ensures g != Some(h) ==> r == g
  {
    if g == Some(h) then None else g
  }

  /** The arena after the focus moves from f to g: the window losing it stops editing. */
  function Unfocused(wins: Arena, f: Option<Handle>, g: Option<Handle>): (r: Arena)
    ensures r.Keys == wins.Keys
    ensures forall x | x in wins && Some(x) != f :: r[x] == wins[x]
    ensures f.Some? && f != g && f.value in wins ==> r[f.value] == wins[f.value].(editing := false)
    ensures f == g ==> r == wins
    ensures forall x | x in wins :: r[x].parent == wins[x].parent && r[x].children == wins[x].children
  {
    if f.Some? && f != g && f.value in wins then wins[f.value := wins[f.value].(editing := false)] else wins
  }

  /** A global once the windows outside `live` are gone: None if it named one of them. */
  function Dropped(g: Option<Handle>, live: set<Handle>): (r: Option<Handle>)
    ensures r.Some? ==> r.value in live
    ensures r == g || r.None?
    ensures g.Some? && g.value in live ==> r == g
  {
    if g.Some? && g.value !in live then None else g
  }

  /** Releasing h, then every window outside `live`, releases every window outside `live - {h}`. */
  lemma DroppedCleared(g: Option<Handle>, h: Handle, live: set<Handle>)
    ensures Dropped(Cleared(g, h), live) == Dropped(g, live - {h})
  {
  }

  /** Freeing a dying window whose children are gone keeps the desktop invariant. */
  lemma SoundFreed(wins: Arena, top: seq<Handle>, s: Shape, dying: set<Handle>,
                   f: Option<Handle>, c: Option<Handle>, t: Option<Handle>,
                   pending: seq<Msg>, hs: seq<Hook>, n: Handle, h: Handle)
    requires Sound(wins, top, s, dying + {h}, f, c, t, pending, hs, n) && h !in dying
    requires h in wins && wins[h].children == []
    ensures Sound(Unlinked(wins, h), top, Shape(s.depth - {h}, s.height), dying, f, c, t, pending, hs, n)
  {
    LinkedRemoveLeaf(wins, top, s, h, dying + {h});
    assert dying + {h} - {h} == dying;
    Survivors(pending, hs, wins, dying + {h}, Unlinked(wins, h), dying);
  }

  /** Right after h is detached, no window has gone yet. */
  lemma ClearingStart(w0: Arena, s0: Shape, top: seq<Handle>, h: Handle, f: Option<Handle>)
    requires Linked(w0, top, s0) && h in w0
    ensures Clearing(w0, s0, Unfocused(w0, f, Cleared(f, h)), s0, h)
  {
  }

  /** The messages released globals cost: the focus change, and the invalidation after WM_MOUSELEAVE. */
  function ReleasePosts(wins: Arena, focused: Option<Handle>, tracked: Option<Handle>, h: Handle): (ms: seq<Msg>)
    requires h in wins
    ensures ms == [] <==> focused != Some(h) && tracked != Some(h)
    ensures forall m | m in ms :: m.target == Some(h)
  {
    (if focused == Some(h) then FocusPosts(wins, Some(h), None) else [])
      + (if tracked == Some(h) then Inval(wins, h) else [])
  }

  /**
   * Everything `destroy_window(h)` posts before it unlists h: the stencil
   * refresh, the overlap invalidations and what releasing the globals costs.
   */
  function DetachPosts(wins: Arena, top: seq<Handle>, f: Option<Handle>, t: Option<Handle>, h: Handle): (ms: seq<Msg>)
    requires h in wins && forall x | x in top :: x in wins
    ensures |ms| >= 1 && ms[0] == Note(STENCIL_TARGET, WM_REFRESHSTENCIL)
  {
    [Note(STENCIL_TARGET, WM_REFRESHSTENCIL)] + OverlapInvals(wins, top, h) + ReleasePosts(wins, f, t, h)
  }

  /** The messages of DetachPosts are for the stencil, for h or for listed windows, none of them dying. */
  lemma DetachPostsAddressed(wins: Arena, top: seq<Handle>, s: Shape, dying: set<Handle>,
                             f: Option<Handle>, t: Option<Handle>, h: Handle)
    requires Linked(wins, top, s) && (forall d | d in dying :: d !in top) && h in wins && h !in dying
    ensures Addressed(DetachPosts(wins, top, f, t, h), wins, dying)
  {
    forall m | m in DetachPosts(wins, top, f, t, h) ensures Addressable(m, wins, dying) {
      if m in OverlapInvals(wins, top, h) {
        assert m.target.value in top;
      }
    }
  }

  /** The queue after `destroy_window(h)`: the detach posts and the subtree's posts, then the subtree forgotten. */
  lemma DestroyRounds(p0: seq<Msg>, d: seq<Msg>, ps: seq<Msg>, w0: Arena, k2: set<Handle>, dying: set<Handle>, h: Handle)
    requires |p0| < QUEUE_SIZE && h in w0 && h !in k2 && h != STENCIL_TARGET
    requires Addressed(d, w0, dying) && Addressed(ps, w0, dying + {h})
    ensures PurgeAll(AfterPosts(PurgeAll(AfterPosts(p0, d), {h}), ps), w0.Keys - k2) == PurgeAll(AfterPosts(p0, d + ps), w0.Keys - k2)
    ensures Addressed(d + ps, w0, dying)
  {
    AddressedAvoids(ps, w0, dying + {h}, {h});
    PurgedRounds(p0, d, ps, {h}, w0.Keys - k2);
    assert {h} + (w0.Keys - k2) == w0.Keys - k2;
    AddressedWeaker(ps, w0, dying + {h}, w0, dying);
  }

  /** Freeing a dying window, which no pending message names, forgets nothing more. */
  lemma FreedRound(x: seq<Msg>, p: seq<Msg>, k0: set<Handle>, w1: Arena, dying: set<Handle>, h: Handle)
    requires p == PurgeAll(x, k0 - w1.Keys) && Addressed(p, w1, dying + {h}) && h in k0 && h != STENCIL_TARGET
    ensures p == PurgeAll(x, k0 - (w1.Keys - {h}))
  {
    PurgeAllUnion(x, k0 - w1.Keys, {h});
    AddressedAvoids(p, w1, dying + {h}, {h});
    PurgeAllMissing(p, {h});
    assert (k0 - w1.Keys) + {h} == k0 - (w1.Keys - {h});
  }

  /** One pass of `clear_window_children`: the child's posts join the earlier ones, and what it destroyed is forgotten. */
  lemma ClearRound(p0: seq<Msg>, posts: seq<Msg>, ps: seq<Msg>, w0: Arena, w1: Arena, k2: set<Handle>, dying: set<Handle>)
    requires |p0| < QUEUE_SIZE && k2 <= w1.Keys <= w0.Keys && STENCIL_TARGET !in w0
    requires Addressed(posts, w0, dying) && Addressed(ps, w1, dying)
    ensures PurgeAll(AfterPosts(PurgeAll(AfterPosts(p0, posts), w0.Keys - w1.Keys), ps), w1.Keys - k2)
         == PurgeAll(AfterPosts(p0, posts + ps), w0.Keys - k2)
    ensures Addressed(posts + ps, w0, dying)
  {
    AddressedAvoids(ps, w1, dying, w0.Keys - w1.Keys);
    PurgedRounds(p0, posts, ps, w0.Keys - w1.Keys, w1.Keys - k2);
    assert (w0.Keys - w1.Keys) + (w1.Keys - k2) == w0.Keys - k2;
    AddressedWeaker(ps, w1, dying, w0, dying);
  }

  /** What `set_focus(g)` posts with f focused: nothing when g is already focused. */
  function FocusChange(wins: Arena, f: Option<Handle>, g: Option<Handle>): (ms: seq<Msg>)
    requires f.Some? ==> f.value in wins
    requires g.Some? ==> g.value in wins
    ensures f == g ==> ms == []
    ensures f != g ==> ms == FocusPosts(wins, f, g)
  {
    if f == g then [] else FocusPosts(wins, f, g)
  }

  /** Posting a, then ms, then b. */
  lemma PostsAround(p: seq<Msg>, a: Msg, ms: seq<Msg>, b: Msg)
    requires |p| < QUEUE_SIZE
    ensures AfterPosts(p, [a] + ms + [b]) == AfterPost(AfterPosts(AfterPost(p, a), ms), b)
  {
    AfterPostsSplit(p, [a], ms);
    AfterPostsSplit(p, [a] + ms, [b]);
    assert [a][1..] == [] && [b][1..] == [];
  }

  /** The id `create_window` gives: one past the parent's counter, or the highest free top-level id. */
  function NewId(wins: Arena, top: seq<Handle>, parent: Option<Handle>): (id: int)
    requires parent.Some? ==> parent.value in wins
    requires forall t | t in top :: t in wins
    ensures parent.Some? ==> id > wins[parent.value].childId
    ensures parent.None? ==> 0 <= id <= 255 && (id == 0 <==> forall i | 1 <= i <= 255 :: i in Ids(wins, top))
    ensures parent.None? && id != 0 ==> forall t | t in top :: wins[t].id != id
  {
    if parent.Some? then wins[parent.value].childId + 1 else HighestFree(Ids(wins, top), 255)
  }

  /**
   * What the desktop invariant asks of the globals of user/window.c, the
   * pending messages and the hooks: the forest is linked, every window
   * without a parent is listed unless it is dying, and nothing names a
   * dead or dying window. Handles below n have been given out.
   */
  ghost predicate Sound(wins: Arena, top: seq<Handle>, s: Shape, dying: set<Handle>,
                        f: Option<Handle>, c: Option<Handle>, t: Option<Handle>,
                        pending: seq<Msg>, hs: seq<Hook>, n: Handle)
  {
    && Addressed(pending, wins, dying)
    && Linked(wins, top, s) && RootedExcept(wins, top, dying)
    && (forall d | d in dying :: d in wins && d !in top)
    && Alive(f, wins, dying) && Alive(c, wins, dying) && Alive(t, wins, dying)
    && Owned(hs, wins, dying)
    && 0 < n && (forall h | h in wins :: 0 < h < n)
  }

  /** Changing a window's fields other than its links keeps the invariant. */
  lemma SoundUpdate(wins: Arena, top: seq<Handle>, s: Shape, dying: set<Handle>,
                    f: Option<Handle>, c: Option<Handle>, t: Option<Handle>,
                    pending: seq<Msg>, hs: seq<Hook>, n: Handle, h: Handle, w: Window)
    requires Sound(wins, top, s, dying, f, c, t, pending, hs, n) && h in wins
    requires w.parent == wins[h].parent && w.children == wins[h].children
    ensures Sound(wins[h := w], top, s, dying, f, c, t, pending, hs, n)
  {
    LinkedUpdate(wins, top, s, h, w, dying);
    Survivors(pending, hs, wins, dying, wins[h := w], dying);
  }

  /** A new child keeps everything the desktop invariant asks of the arena. */
  lemma ChildAdded(wins: Arena, top: seq<Handle>, s: Shape, p: Handle, wp: Window, h: Handle, w: Window,
                   f: Option<Handle>, c: Option<Handle>, t: Option<Handle>, pending: seq<Msg>, hs: seq<Hook>)
    requires Linked(wins, top, s) && RootedExcept(wins, top, {})
    requires forall x | x in wins :: 0 < x < h
    requires p in wins && w.parent == Some(p) && w.children == []
    requires wp.parent == wins[p].parent && wp.children == wins[p].children + [h]
    requires Alive(f, wins, {}) && Alive(c, wins, {}) && Alive(t, wins, {})
    requires Addressed(pending, wins, {}) && Owned(hs, wins, {})
    ensures var wins' := wins[h := w][p := wp]; var d := s.depth[p] + 1;
      && Linked(wins', top, Shape(s.depth[h := d], if d > s.height then d else s.height))
      && RootedExcept(wins', top, {})
      && Alive(f, wins', {}) && Alive(c, wins', {}) && Alive(t, wins', {})
      && Addressed(pending, wins', {}) && Owned(hs, wins', {})
      && forall x | x in wins' :: 0 < x < h + 1
  {
    assert h !in wins && h != STENCIL_TARGET;
    LinkedAddChild(wins, top, s, p, wp, h, w, {});
    Survivors(pending, hs, wins, {}, wins[h := w][p := wp], {});
  }

  /** The ids of one more window. */
  lemma IdsSnoc(wins: Arena, ts: seq<Handle>, t: Handle)
    requires t in wins && forall u | u in ts :: u in wins
    ensures Ids(wins, ts + [t]) == Ids(wins, ts) + {wins[t].id}
  {
    assert forall u | u in ts + [t] :: u in ts || u == t;
  }

  /** What `set_focus` posts for the window losing the focus. */
  function Lost(wins: Arena, from: Option<Handle>, to: Option<Handle>): seq<Msg>
    requires from.Some? ==> from.value in wins
  {
    if from.Some? then [Msg(from, WM_KILLFOCUS, 0, to)] + Inval(wins, from.value) else []
  }

  /** What `set_focus` posts for the window gaining the focus. */
  function Gained(wins: Arena, from: Option<Handle>, to: Option<Handle>): seq<Msg>
    requires to.Some? ==> to.value in wins
  {
    if to.Some? then [Msg(to, WM_SETFOCUS, 0, from)] + Inval(wins, to.value) else []
  }

  /** The posts of the two halves of `set_focus` are those of FocusPosts, in order. */
  lemma FocusSplit(p: seq<Msg>, wins0: Arena, wins: Arena, from: Option<Handle>, g: Option<Handle>)
    requires |p| < QUEUE_SIZE
    requires from.Some? ==> from.value in wins0
    requires g.Some? ==> g.value in wins0 && g.value in wins && wins[g.value].parent == wins0[g.value].parent
    ensures AfterPosts(AfterPosts(p, Lost(wins0, from, g)), Gained(wins, from, g)) == AfterPosts(p, FocusPosts(wins0, from, g))
  {
    assert Gained(wins, from, g) == Gained(wins0, from, g);
    AfterPostsSplit(p, Lost(wins0, from, g), Gained(wins0, from, g));
    assert FocusPosts(wins0, from, g) == Lost(wins0, from, g) + Gained(wins0, from, g);
  }

  /** The posts of the focus part and then the tracking part of Release are ReleasePosts. */
  lemma ReleaseSplit(p: seq<Msg>, wins0: Arena, wins: Arena, f0: Option<Handle>, t0: Option<Handle>, h: Handle)
    requires |p| < QUEUE_SIZE && h in wins0 && h in wins && wins[h].parent == wins0[h].parent
    ensures AfterPosts(AfterPosts(p, if f0 == Some(h) then FocusPosts(wins0, Some(h), None) else []),
                       if t0 == Some(h) then Inval(wins, h) else [])
      == AfterPosts(p, ReleasePosts(wins0, f0, t0, h))
  {
    assert Inval(wins, h) == Inval(wins0, h);
    AfterPostsSplit(p, if f0 == Some(h) then FocusPosts(wins0, Some(h), None) else [], if t0 == Some(h) then Inval(wins0, h) else []);
  }

  class Desktop {
    /** Every window alive, by handle. */
    var wins: Arena
    /** `windows`: the top-level windows in paint and Z order. */
    var top: seq<Handle>
    var focused: Option<Handle>
    var captured: Option<Handle>
    var tracked: Option<Handle>
    /** The handle the next `malloc` returns; handles are never reused. */
    var nextHandle: Handle
    ghost var shape: Shape
    const queue: MessageQueue
    const hooks: HookList
    const procs: Reply

    /**
     * The desktop while the windows in `dying` are being destroyed: they
     * are off the global list, and the globals, the queue and the hooks
     * only name live windows.
     */
    ghost predicate Inv(dying: set<Handle>)
      reads this, queue, queue.messages, hooks
    {
      queue.Valid() && Sound(wins, top, shape, dying, focused, captured, tracked, queue.Pending(), hooks.hooks, nextHandle)
    }

    /** The queue part of the invariant: the ring is well formed and every pending message may stay. */
    ghost predicate QueueOk(dying: set<Handle>)
      reads this, queue, queue.messages
    {
      queue.Valid() && Addressed(queue.Pending(), wins, dying)
    }

    /** The desktop between operations. */
    ghost predicate Valid()
      reads this, queue, queue.messages, hooks
    {
      Inv({})
    }

    /** The desktop at start-up: no windows, an empty queue, no hooks. */
    constructor (procs: Reply)
      ensures Valid() && this.procs == procs
      ensures wins == map[] && top == [] && focused.None? && captured.None? && tracked.None?
      ensures queue.Pending() == [] && hooks.hooks == []
    {
      wins, top := map[], [];
      focused, captured, tracked := None, None, None;
      nextHandle := 1;
      shape := Shape(map[], 0);
      queue := new MessageQueue();
      hooks := new HookList();
      this.procs := procs;
    }

    /** `post_message` to a window that may stay queued. */
    method Post(m: Msg, ghost dying: set<Handle>)
      requires QueueOk(dying) && Addressable(m, wins, dying)
      modifies queue, queue.messages
      ensures QueueOk(dying) && queue.Pending() == AfterPost(old(queue.Pending()), m)
    {
      AddressedPosts(queue.Pending(), [m], wins, dying);
      assert AfterPosts(queue.Pending(), [m]) == AfterPost(queue.Pending(), m) by {
        assert [m][1..] == [];
      }
      queue.Post(m);
    }

    /** `invalidate_window` */
    method Invalidate(h: Handle, ghost dying: set<Handle>)
      requires QueueOk(dying) && h in wins && h !in dying
      modifies queue, queue.messages
      ensures QueueOk(dying) && queue.Pending() == AfterPosts(old(queue.Pending()), Inval(wins, h))
    {
      ghost var p := queue.Pending();
      if wins[h].parent.None? {
        Post(Note(h, WM_NCPAINT), dying);
        ghost var p1 := queue.Pending();
        Post(Note(h, WM_PAINT), dying);
        assert [Note(h, WM_NCPAINT), Note(h, WM_PAINT)][1..] == [Note(h, WM_PAINT)];
        assert AfterPosts(p1, [Note(h, WM_PAINT)]) == AfterPost(p1, Note(h, WM_PAINT)) by {
          assert [Note(h, WM_PAINT)][1..] == [];
        }
      } else {
        Post(Note(h, WM_PAINT), dying);
        assert [Note(h, WM_PAINT)][1..] == [];
      }
    }

    /** `invalidate_overlaps`: every other top-level window overlapping h is invalidated, in list order. */
    method InvalidateOverlaps(h: Handle, ghost dying: set<Handle>)
      requires Inv(dying) && h in wins
      modifies queue, queue.messages
      ensures Inv(dying) && queue.Pending() == AfterPosts(old(queue.Pending()), OverlapInvals(wins, top, h))
    {
      ghost var p := queue.Pending();
      assert forall t | t in top :: t in wins && t !in dying;
      for i := 0 to |top|
        invariant QueueOk(dying)
        invariant forall u | u in top[..i] :: u in wins
        invariant queue.Pending() == AfterPosts(p, OverlapInvals(wins, top[..i], h))
      {
        var t := top[i];
        PrefixIn(top, i + 1);
        assert t in top;
        OverlapInvalsSnoc(wins, top[..i], t, h);
        Snoc(top, i);
        InvalidateIfOverlapping(t, h, dying);
        AfterPostsSplit(p, OverlapInvals(wins, top[..i], h), if t != h && Overlap(wins[t], wins[h]) then Inval(wins, t) else []);
      }
      assert top[..|top|] == top;
    }

    /** One step of `invalidate_overlaps`. */
    method InvalidateIfOverlapping(t: Handle, h: Handle, ghost dying: set<Handle>)
      requires QueueOk(dying) && t in wins && t !in dying && h in wins
      modifies queue, queue.messages
      ensures QueueOk(dying)
      ensures queue.Pending() == AfterPosts(old(queue.Pending()), if t != h && Overlap(wins[t], wins[h]) then Inval(wins, t) else [])
    {
      if t != h && Overlap(wins[t], wins[h]) {
        Invalidate(t, dying);
      }
    }

    /**
     * `send_message`: the hooks for the kind run first, then the
     * procedure; when it returns 0 the default for the kind applies.
     * `buttons` is the array TB_ADDBUTTONS copies `wparam` entries from.
     */
    method Send(target: Option<Handle>, kind: int, wparam: U32, buttons: seq<ToolbarButton>, ghost dying: set<Handle>)
      returns (r: Sent)
      requires Inv(dying)
      requires target.Some? ==> target.value in wins && target.value !in dying
      requires kind == TB_ADDBUTTONS ==> wparam <= |buttons|
      modifies this`wins, queue, queue.messages
      ensures Inv(dying)
      ensures target.None? ==> r == Nothing && wins == old(wins) && queue.Pending() == old(queue.Pending())
      ensures target.Some? ==>
        var h := target.value;
        var w := old(wins)[h];
        var scrolled := kind == WM_WHEEL && r.value == 0;
        && r.value == procs(h, kind, wparam)
        && r.hooks == Matching(hooks.hooks, kind)
        && (kind == TB_ADDBUTTONS ==> wins == old(wins)[h := w.(toolbar := buttons[..wparam])])
        && (scrolled ==> wins == old(wins)[h := Wheel(w, wparam)])
        && (kind != TB_ADDBUTTONS && !scrolled ==> wins == old(wins))
        && queue.Pending() ==
             (if scrolled && (Has(w.flags, WINDOW_HSCROLL) || Has(w.flags, WINDOW_VSCROLL))
              then AfterPosts(old(queue.Pending()), Inval(old(wins), h)) else old(queue.Pending()))
        && r.hit == (if kind == WM_HITTEST && r.value == 0
                     then HitTest(old(wins), w.children, LoWord(wparam), HiWord(wparam)) else None)
        && r.clicks == (if kind == WM_NCLBUTTONUP && r.value == 0 && Has(w.flags, WINDOW_TOOLBAR)
                        then ToolbarClicks(w.frame, w.toolbar, 0, LoWord(wparam), HiWord(wparam)) else [])
        && r.painted == (if kind == WM_PAINT && r.value == 0 then w.children else [])
        && r.stencil == (if kind == WM_PAINTSTENCIL && r.value == 0 then Some(StencilRect(w)) else None)
    {
      if target.None? {
        return Nothing;
      }
      var h := target.value;
      var called := Matching(hooks.hooks, kind);
      if kind == TB_ADDBUTTONS {
        ghost var w0 := wins;
        wins := wins[h := wins[h].(toolbar := buttons[..wparam])];
        Retouched(w0, h, dying);
      }
      var value := procs(h, kind, wparam);
      r := Sent(value, called, None, [], [], None);
      if value != 0 {
        return;
      }
      var w := wins[h];
      ChildrenAlive(h);
      if kind == WM_PAINT {
        r := r.(painted := w.children);
      } else if kind == WM_WHEEL {
        ghost var w0 := wins;
        wins := wins[h := Wheel(w, wparam)];
        Retouched(w0, h, dying);
        if Has(w.flags, WINDOW_VSCROLL) || Has(w.flags, WINDOW_HSCROLL) {
          Invalidate(h, dying);
        }
      } else if kind == WM_PAINTSTENCIL {
        r := r.(stencil := Some(StencilRect(w)));
      } else if kind == WM_HITTEST {
        r := r.(hit := HitTest(wins, w.children, LoWord(wparam), HiWord(wparam)));
      } else if kind == WM_NCLBUTTONUP && Has(w.flags, WINDOW_TOOLBAR) {
        r := r.(clicks := ToolbarClicks(w.frame, w.toolbar, 0, LoWord(wparam), HiWord(wparam)));
      }
    }

    /** The invariant after a change to h that left its links alone. */
    lemma Retouched(w0: Arena, h: Handle, dying: set<Handle>)
      requires queue.Valid() && Sound(w0, top, shape, dying, focused, captured, tracked, queue.Pending(), hooks.hooks, nextHandle)
      requires h in w0 && h in wins && wins == w0[h := wins[h]]
      requires wins[h].parent == w0[h].parent && wins[h].children == w0[h].children
      ensures Inv(dying)
    {
      SoundUpdate(w0, top, shape, dying, focused, captured, tracked, queue.Pending(), hooks.hooks, nextHandle, h, wins[h]);
    }

    /** The children of a window are windows. */
    lemma ChildrenAlive(h: Handle)
      requires Linked(wins, top, shape) && h in wins
      ensures forall c | c in wins[h].children :: c in wins
    {
    }

    /**
     * `set_focus`: nothing happens if g already has the focus; otherwise
     * the old window stops editing and is told it lost the focus, the new
     * one is told it gained it, and both are invalidated.
     */
    method SetFocus(g: Option<Handle>, ghost dying: set<Handle>)
      requires Inv(dying) && Alive(g, wins, dying)
      modifies this`wins, this`focused, queue, queue.messages
      ensures Inv(dying) && focused == g
      ensures wins == Unfocused(old(wins), old(focused), g)
      ensures queue.Pending() == AfterPosts(old(queue.Pending()), FocusChange(old(wins), old(focused), g))
    {
      if g != focused {
        MoveFocus(g, dying);
      }
    }

    /** `set_focus` once g is known to differ from the focused window. */
    method MoveFocus(g: Option<Handle>, ghost dying: set<Handle>)
      requires Inv(dying) && Alive(g, wins, dying) && focused != g
      modifies this`wins, this`focused, queue, queue.messages
      ensures Inv(dying) && focused == g
      ensures wins == Unfocused(old(wins), old(focused), g)
      ensures queue.Pending() == AfterPosts(old(queue.Pending()), FocusPosts(old(wins), old(focused), g))
    {
      ghost var p := queue.Pending();
      ghost var wins0 := wins;
      var from := focused;
      KillFocus(from, g, dying);
      GiveFocus(g, from, dying);
      FocusSplit(p, wins0, wins, from, g);
    }

    /** The last step of `set_focus`: the global now names g. */
    method Focus(g: Option<Handle>, ghost dying: set<Handle>)
      requires Inv(dying) && Alive(g, wins, dying)
      modifies this`focused
      ensures Inv(dying) && focused == g
    {
      focused := g;
    }

    /** The first half of `set_focus`: the window losing the focus, if any. */
    method KillFocus(from: Option<Handle>, g: Option<Handle>, ghost dying: set<Handle>)
      requires Inv(dying) && Alive(from, wins, dying) && Alive(g, wins, dying) && from != g
      modifies this`wins, queue, queue.messages
      ensures Inv(dying) && Alive(g, wins, dying)
      ensures wins == Unfocused(old(wins), from, g)
      ensures queue.Pending() == AfterPosts(old(queue.Pending()), Lost(old(wins), from, g))
    {
      if from.None? {
        return;
      }
      var f := from.value;
      ghost var p := queue.Pending();
      ghost var wins0 := wins;
      wins := wins[f := wins[f].(editing := false)];
      Retouched(wins0, f, dying);
      Post(Msg(Some(f), WM_KILLFOCUS, 0, g), dying);
      Invalidate(f, dying);
      assert Inval(wins, f) == Inval(wins0, f);
      AfterPostsSplit(p, [Msg(Some(f), WM_KILLFOCUS, 0, g)], Inval(wins0, f));
      assert [Msg(Some(f), WM_KILLFOCUS, 0, g)][1..] == [];
    }

    /** The second half of `set_focus`: the window gaining the focus, if any, is told so; then the global names it. */
    method GiveFocus(g: Option<Handle>, from: Option<Handle>, ghost dying: set<Handle>)
      requires Inv(dying) && Alive(g, wins, dying)
      modifies this`focused, queue, queue.messages
      ensures Inv(dying) && focused == g
      ensures queue.Pending() == AfterPosts(old(queue.Pending()), Gained(wins, from, g))
    {
      if g.Some? {
        ghost var p := queue.Pending();
        Post(Msg(g, WM_SETFOCUS, 0, from), dying);
        Invalidate(g.value, dying);
        AfterPostsSplit(p, [Msg(g, WM_SETFOCUS, 0, from)], Inval(wins, g.value));
        assert [Msg(g, WM_SETFOCUS, 0, from)][1..] == [];
      }
      Focus(g, dying);
    }

    /** `set_capture` */
    method SetCapture(g: Option<Handle>, ghost dying: set<Handle>)
      requires Inv(dying) && Alive(g, wins, dying)
      modifies this`captured
      ensures Inv(dying) && captured == g
    {
      captured := g;
    }

    /**
     * `track_mouse`: nothing happens if g is already tracked; otherwise
     * the window tracked so far, if any, is sent WM_MOUSELEAVE (returned
     * as `left`) and invalidated.
     */
    method TrackMouse(g: Option<Handle>, ghost dying: set<Handle>) returns (left: Option<Handle>)
      requires Inv(dying) && Alive(g, wins, dying)
      modifies this`wins, this`tracked, queue, queue.messages
      ensures Inv(dying) && tracked == g && wins == old(wins)
      ensures left == (if old(tracked) == g then None else old(tracked))
      ensures queue.Pending() ==
        if left.None? then old(queue.Pending()) else AfterPosts(old(queue.Pending()), Inval(wins, left.value))
    {
      left := None;
      if tracked == g {
        return;
      }
      if tracked.Some? {
        left := tracked;
        var _ := Send(tracked, WM_MOUSELEAVE, 0, [], dying);
        Invalidate(left.value, dying);
      }
      tracked := g;
    }

    /** The four posts `move_window` and `resize_window` begin with. */
    method GeometryNotify(h: Handle)
      requires Valid() && h in wins
      modifies queue, queue.messages
      ensures Valid() && queue.Pending() == AfterPosts(old(queue.Pending()), GeometryPosts(wins, top, h))
    {
      ghost var p := queue.Pending();
      var a, b := Note(h, WM_RESIZE), Note(h, WM_REFRESHSTENCIL);
      Post(a, {});
      ghost var p1 := queue.Pending();
      Post(b, {});
      assert AfterPosts(p, [a, b]) == queue.Pending() by {
        assert [a, b][0] == a && [a, b][1..] == [b] && [b][1..] == [];
        assert AfterPosts(p1, [b]) == AfterPosts(AfterPost(p1, b), []);
      }
      InvalidateOverlaps(h, {});
      Invalidate(h, {});
      AfterPostsSplit(p, [a, b], OverlapInvals(wins, top, h));
      AfterPostsSplit(p, [a, b] + OverlapInvals(wins, top, h), Inval(wins, h));
    }

    /** `move_window`: the repaint posts, then only x and y change. */
    method Move(h: Handle, x: int, y: int)
      requires Valid() && h in wins
      modifies this, queue, queue.messages
      ensures Valid()
      ensures top == old(top) && focused == old(focused) && captured == old(captured) && tracked == old(tracked)
      ensures wins == old(wins)[h := old(wins)[h].(frame := old(wins)[h].frame.(x := x, y := y))]
      ensures queue.Pending() == AfterPosts(old(queue.Pending()), GeometryPosts(old(wins), top, h))
    {
      GeometryNotify(h);
      ghost var w0 := wins;
      wins := wins[h := wins[h].(frame := wins[h].frame.(x := x, y := y))];
      Retouched(w0, h, {});
    }

    /** `resize_window`: the repaint posts, then each positive dimension is taken and the others kept. */
    method Resize(h: Handle, width: int, height: int)
      requires Valid() && h in wins
      modifies this, queue, queue.messages
      ensures Valid()
      ensures top == old(top) && focused == old(focused) && captured == old(captured) && tracked == old(tracked)
      ensures wins == old(wins)[h := old(wins)[h].(frame := Resized(old(wins)[h].frame, width, height))]
      ensures queue.Pending() == AfterPosts(old(queue.Pending()), GeometryPosts(old(wins), top, h))
    {
      GeometryNotify(h);
      ghost var w0 := wins;
      wins := wins[h := wins[h].(frame := Resized(wins[h].frame, width, height))];
      Retouched(w0, h, {});
    }

    /**
     * `move_to_top`: the root of h is told to refresh the stencil and
     * invalidated; then, unless it stays in the back, it is unlinked from
     * the global list and appended at the tail.
     */
    method MoveToTop(h: Handle)
      requires Valid() && h in wins
      modifies this, queue, queue.messages
      ensures Valid() && wins == old(wins) && shape == old(shape)
      ensures focused == old(focused) && captured == old(captured) && tracked == old(tracked)
      ensures var r := Root(old(wins), old(top), old(shape), h);
        && top == Raise(old(top), r, wins[r].flags)
        && queue.Pending() == AfterPosts(old(queue.Pending()), [Note(r, WM_REFRESHSTENCIL)] + Inval(wins, r))
    {
      var r := Root(wins, top, shape, h);
      ghost var p := queue.Pending();
      Post(Note(r, WM_REFRESHSTENCIL), {});
      Invalidate(r, {});
      AfterPostsSplit(p, [Note(r, WM_REFRESHSTENCIL)], Inval(wins, r));
      assert [Note(r, WM_REFRESHSTENCIL)][1..] == [];
      if Has(wins[r].flags, WINDOW_ALWAYSINBACK) {
        return;
      }
      var i := IndexInTop(r);
      ghost var t0 := top;
      top := top[..i] + top[i + 1..] + [r];
      Raised(t0, i, r);
    }

    /** The scan of `move_to_top` for r in the global list. */
    method IndexInTop(r: Handle) returns (i: nat)
      requires r in top
      ensures i < |top| && top[i] == r && r !in top[..i]
    {
      i := 0;
      while top[i] != r
        invariant i < |top| && r in top[i..] && r !in top[..i]
        decreases |top| - i
      {
        assert top[i..] == [top[i]] + top[i + 1..];
        assert top[..i + 1] == top[..i] + [top[i]];
        i := i + 1;
      }
    }

    /** The desktop after r was cut out of the global list at i and appended. */
    lemma Raised(t0: seq<Handle>, i: nat, r: Handle)
      requires queue.Valid() && Linked(wins, t0, shape) && RootedExcept(wins, t0, {})
      requires Alive(focused, wins, {}) && Alive(captured, wins, {}) && Alive(tracked, wins, {})
      requires Addressed(queue.Pending(), wins, {}) && Owned(hooks.hooks, wins, {})
      requires 0 < nextHandle && forall x | x in wins :: 0 < x < nextHandle
      requires i < |t0| && t0[i] == r && r !in t0[..i] && r in wins && !Has(wins[r].flags, WINDOW_ALWAYSINBACK)
      requires top == t0[..i] + t0[i + 1..] + [r]
      ensures Valid() && top == Raise(t0, r, wins[r].flags)
    {
      RemoveFirstAt(t0, i, r);
      RaiseProperties(t0, r, wins[r].flags);
      LinkedReorder(wins, t0, top, shape, {});
    }

    /** `enable_window`: disabling the focused window first takes the focus away; the window is then invalidated. */
    method EnableWindow(h: Handle, enable: bool)
      requires Valid() && h in wins
      modifies this, queue, queue.messages
      ensures Valid() && top == old(top) && captured == old(captured) && tracked == old(tracked)
      ensures !enable && old(focused) == Some(h) ==>
        && focused == None
        && wins == old(wins)[h := old(wins)[h].(disabled := true, editing := false)]
        && queue.Pending() == AfterPosts(old(queue.Pending()), FocusPosts(old(wins), Some(h), None) + Inval(old(wins), h))
      ensures enable || old(focused) != Some(h) ==>
        && focused == old(focused)
        && wins == old(wins)[h := old(wins)[h].(disabled := !enable)]
        && queue.Pending() == AfterPosts(old(queue.Pending()), Inval(old(wins), h))
    {
      if !enable && focused == Some(h) {
        ghost var p := queue.Pending();
        ghost var wins0 := wins;
        SetFocus(None, {});
        assert Inval(wins, h) == Inval(wins0, h);
        SetDisabled(h, true);
        UpdateTwice(wins0, h, wins0[h].(editing := false), wins0[h].(editing := false).(disabled := true));
        AfterPostsSplit(p, FocusPosts(wins0, Some(h), None), Inval(wins0, h));
      } else {
        SetDisabled(h, !enable);
      }
    }

    /** The second half of `enable_window`: store the flag and invalidate. */
    method SetDisabled(h: Handle, disabled: bool)
      requires Valid() && h in wins
      modifies this, queue, queue.messages
      ensures Valid() && top == old(top) && focused == old(focused) && captured == old(captured) && tracked == old(tracked)
      ensures wins == old(wins)[h := old(wins)[h].(disabled := disabled)]
      ensures queue.Pending() == AfterPosts(old(queue.Pending()), Inval(old(wins), h))
    {
      ghost var w0 := wins;
      wins := wins[h := wins[h].(disabled := disabled)];
      Retouched(w0, h, {});
      Invalidate(h, {});
    }

    /**
     * `find_window`: the last visible top-level window whose frame, grown
     * upward by its bars, holds the point, or the child its WM_HITTEST
     * default reports.
     */
    method FindWindow(x: int, y: int) returns (r: Option<Handle>)
      requires Valid()
      modifies this, queue, queue.messages
      ensures Valid() && wins == old(wins) && top == old(top) && queue.Pending() == old(queue.Pending())
      ensures focused == old(focused) && captured == old(captured) && tracked == old(tracked)
      ensures r == Found(wins, top, x, y, procs)
    {
      r := None;
      for i := 0 to |top|
        invariant Valid() && wins == old(wins) && top == old(top) && queue.Pending() == old(queue.Pending())
        invariant focused == old(focused) && captured == old(captured) && tracked == old(tracked)
        invariant forall u | u in top[..i] :: u in wins && forall c | c in wins[u].children :: c in wins
        invariant r == Found(wins, top[..i], x, y, procs)
      {
        PrefixIn(top, i + 1);
        Snoc(top, i);
        assert top[i] in top;
        r := FindStep(top[i], x, y, r);
        assert top[..i + 1][..i] == top[..i];
      }
      assert top[..|top|] == top;
    }

    /** One window of the `find_window` loop, with `last` the answer so far. */
    method FindStep(w: Handle, x: int, y: int, last: Option<Handle>) returns (r: Option<Handle>)
      requires Valid() && w in top
      modifies this, queue, queue.messages
      ensures Valid() && wins == old(wins) && top == old(top) && queue.Pending() == old(queue.Pending())
      ensures focused == old(focused) && captured == old(captured) && tracked == old(tracked)
      ensures forall c | c in wins[w].children :: c in wins
      ensures r == if Catches(wins[w], x, y) then Answer(wins, w, x, y, procs) else last
    {
      ChildrenAlive(w);
      var win := wins[w];
      var t := TitlebarHeight(win.flags);
      if !win.visible || !Contains(x, y, Rect(win.frame.x, win.frame.y - t, win.frame.w, win.frame.h + t)) {
        return last;
      }
      r := Some(w);
      if !win.disabled {
        var s := Send(Some(w), WM_HITTEST, HitParam(win, x, y), [], {});
        if s.hit.Some? {
          r := s.hit;
        }
      }
    }

    /**
     * The id `create_window` gives a top-level window: every id in use in
     * the global list is marked in `used[256]`, then 1..255 are scanned
     * upward and the last free one is kept.
     */
    method TopLevelId() returns (id: int)
      requires forall t | t in top :: t in wins
      ensures id == HighestFree(Ids(wins, top), 255)
    {
      var used := new bool[256](_ => false);
      for i := 0 to |top|
        invariant forall u | u in top[..i] :: u in wins
        invariant forall k | 0 <= k < 256 :: used[k] <==> k in Ids(wins, top[..i])
      {
        PrefixIn(top, i + 1);
        assert top[i] in top;
        Snoc(top, i);
        IdsSnoc(wins, top[..i], top[i]);
        var n := wins[top[i]].id;
        if 0 <= n < 256 {
          used[n] := true;
        }
      }
      assert top[..|top|] == top;
      id := 0;
      for i := 1 to 256
        invariant id == HighestFree(Ids(wins, top), i - 1)
      {
        if !used[i] {
          id := i;
        }
      }
    }

    /** `register_window_hook`, for a hook owned by a live window or by none. */
    method RegisterHook(msg: int, func: HookFunc, owner: Option<Handle>)
      requires Valid() && Alive(owner, wins, {})
      modifies hooks
      ensures Valid() && hooks.hooks == [Hook(func, msg, owner)] + old(hooks.hooks)
    {
      hooks.Register(msg, func, owner);
    }

    /**
     * The clean-up `show_window` (when hiding) and `destroy_window` share:
     * each of the three exclusive globals that names h is released.
     */
    method Release(h: Handle, ghost dying: set<Handle>)
      requires Inv(dying) && h in wins && h !in dying
      modifies this`wins, this`focused, this`captured, this`tracked, queue, queue.messages
      ensures Inv(dying)
      ensures focused == Cleared(old(focused), h) && captured == Cleared(old(captured), h) && tracked == Cleared(old(tracked), h)
      ensures wins == Unfocused(old(wins), old(focused), Cleared(old(focused), h))
      ensures queue.Pending() == AfterPosts(old(queue.Pending()), ReleasePosts(old(wins), old(focused), old(tracked), h))
    {
      ghost var p := queue.Pending();
      ghost var wins0 := wins;
      ghost var f0, t0 := focused, tracked;
      DropFocus(h, dying);
      DropPointer(h, dying);
      ReleaseSplit(p, wins0, wins, f0, t0, h);
      assert p == old(queue.Pending()) && wins0 == old(wins) && f0 == old(focused) && t0 == old(tracked);
    }

    /** The focus part of Release. */
    method DropFocus(h: Handle, ghost dying: set<Handle>)
      requires Inv(dying) && h in wins && h !in dying
      modifies this`wins, this`focused, queue, queue.messages
      ensures Inv(dying) && focused == Cleared(old(focused), h)
      ensures wins == Unfocused(old(wins), old(focused), Cleared(old(focused), h))
      ensures queue.Pending() == AfterPosts(old(queue.Pending()), if old(focused) == Some(h) then FocusPosts(old(wins), Some(h), None) else [])
    {
      if focused == Some(h) {
        SetFocus(None, dying);
      }
    }

    /** The capture and mouse-tracking part of Release. */
    method DropPointer(h: Handle, ghost dying: set<Handle>)
      requires Inv(dying) && h in wins && h !in dying
      modifies this`wins, this`captured, this`tracked, queue, queue.messages
      ensures Inv(dying) && wins == old(wins)
      ensures captured == Cleared(old(captured), h) && tracked == Cleared(old(tracked), h)
      ensures queue.Pending() == AfterPosts(old(queue.Pending()), if old(tracked) == Some(h) then Inval(wins, h) else [])
    {
      if captured == Some(h) {
        SetCapture(None, dying);
      }
      if tracked == Some(h) {
        var _ := TrackMouse(None, dying);
      } else {
        assert AfterPosts(queue.Pending(), []) == queue.Pending();
      }
    }

    /** `show_window(h, false)` between its two posts: repaint what h covered and release the globals. */
    method Conceal(h: Handle)
      requires Valid() && h in wins
      modifies this, queue, queue.messages
      ensures Valid() && top == old(top) && shape == old(shape)
      ensures focused == Cleared(old(focused), h) && captured == Cleared(old(captured), h) && tracked == Cleared(old(tracked), h)
      ensures wins == Unfocused(old(wins), old(focused), Cleared(old(focused), h))
      ensures queue.Pending() == AfterPosts(old(queue.Pending()), OverlapInvals(old(wins), top, h) + ReleasePosts(old(wins), old(focused), old(tracked), h))
    {
      ghost var p := queue.Pending();
      InvalidateOverlaps(h, {});
      Release(h, {});
      AfterPostsSplit(p, OverlapInvals(old(wins), top, h), ReleasePosts(old(wins), old(focused), old(tracked), h));
    }

    /** `show_window(h, true)` between its two posts: raise the root of h and focus h. */
    method Reveal(h: Handle)
      requires Valid() && h in wins
      modifies this, queue, queue.messages
      ensures Valid() && shape == old(shape) && focused == Some(h) && captured == old(captured) && tracked == old(tracked)
      ensures var r := Root(old(wins), old(top), old(shape), h);
        && top == Raise(old(top), r, old(wins)[r].flags)
        && queue.Pending() == AfterPosts(old(queue.Pending()), [Note(r, WM_REFRESHSTENCIL)] + Inval(old(wins), r) + FocusChange(old(wins), old(focused), Some(h)))
      ensures wins == Unfocused(old(wins), old(focused), Some(h))
    {
      ghost var p := queue.Pending();
      ghost var r := Root(wins, top, shape, h);
      MoveToTop(h);
      SetFocus(Some(h), {});
      AfterPostsSplit(p, [Note(r, WM_REFRESHSTENCIL)] + Inval(old(wins), r), FocusChange(old(wins), old(focused), Some(h)));
    }

    /**
     * `show_window`: a stencil refresh; then hiding repaints what the window
     * covered and releases the three globals, while showing raises its root
     * and focuses it; then the flag is stored and WM_SHOWWINDOW posted with
     * wparam 1 or 0.
     */
    method ShowWindow(h: Handle, visible: bool)
      requires Valid() && h in wins
      modifies this, queue, queue.messages
      ensures Valid() && wins.Keys == old(wins).Keys && wins[h].visible == visible
      ensures !visible ==>
        var u := Unfocused(old(wins), old(focused), Cleared(old(focused), h));
        && top == old(top)
        && focused == Cleared(old(focused), h) && captured == Cleared(old(captured), h) && tracked == Cleared(old(tracked), h)
        && wins == u[h := u[h].(visible := false)]
        && queue.Pending() == AfterPosts(old(queue.Pending()),
             [Note(h, WM_REFRESHSTENCIL)] + (OverlapInvals(old(wins), top, h) + ReleasePosts(old(wins), old(focused), old(tracked), h))
             + [Msg(Some(h), WM_SHOWWINDOW, 0, None)])
      ensures visible ==>
        var r := Root(old(wins), old(top), old(shape), h);
        var u := Unfocused(old(wins), old(focused), Some(h));
        && top == Raise(old(top), r, old(wins)[r].flags)
        && focused == Some(h) && captured == old(captured) && tracked == old(tracked)
        && wins == u[h := u[h].(visible := true)]
        && queue.Pending() == AfterPosts(old(queue.Pending()),
             [Note(h, WM_REFRESHSTENCIL)] + ([Note(r, WM_REFRESHSTENCIL)] + Inval(old(wins), r) + FocusChange(old(wins), old(focused), Some(h)))
             + [Msg(Some(h), WM_SHOWWINDOW, 1, None)])
    {
      ghost var p := queue.Pending();
      Post(Note(h, WM_REFRESHSTENCIL), {});
      if !visible {
        Conceal(h);
      } else {
        Reveal(h);
      }
      StoreVisible(h, visible);
      ghost var r := Root(old(wins), old(top), old(shape), h);
      ghost var ms := if visible then [Note(r, WM_REFRESHSTENCIL)] + Inval(old(wins), r) + FocusChange(old(wins), old(focused), Some(h))
                      else OverlapInvals(old(wins), top, h) + ReleasePosts(old(wins), old(focused), old(tracked), h);
      PostsAround(p, Note(h, WM_REFRESHSTENCIL), ms, Msg(Some(h), WM_SHOWWINDOW, if visible then 1 else 0, None));
    }

    /** The end of `show_window`: store the flag and post WM_SHOWWINDOW. */
    method StoreVisible(h: Handle, visible: bool)
      requires Valid() && h in wins
      modifies this, queue, queue.messages
      ensures Valid() && top == old(top) && shape == old(shape)
      ensures focused == old(focused) && captured == old(captured) && tracked == old(tracked)
      ensures wins == old(wins)[h := old(wins)[h].(visible := visible)]
      ensures queue.Pending() == AfterPost(old(queue.Pending()), Msg(Some(h), WM_SHOWWINDOW, if visible then 1 else 0, None))
    {
      ghost var w0 := wins;
      wins := wins[h := wins[h].(visible := visible)];
      Retouched(w0, h, {});
      Post(Msg(Some(h), WM_SHOWWINDOW, if visible then 1 else 0, None), {});
    }

    /**
     * `create_window`: a fresh handle whose id is the parent's incremented
     * child counter, or the highest free top-level id; it is pushed at the
     * tail of its list, becomes the focused window without any focus
     * message, receives WM_CREATE, and a child is invalidated.
     */
    method CreateWindow(title: string, flags: Flags, frame: Rect, parent: Option<Handle>, proc: Proc) returns (h: Handle)
      requires Valid() && Alive(parent, wins, {})
      modifies this, queue, queue.messages
      ensures Valid() && h !in old(wins) && h != STENCIL_TARGET
      ensures focused == Some(h) && captured == old(captured) && tracked == old(tracked)
      ensures var w := NewWindow(title, flags, frame, parent, proc).(id := NewId(old(wins), old(top), parent));
        if parent.None? then
          top == old(top) + [h] && wins == old(wins)[h := w]
        else
          var p := parent.value;
          top == old(top) && wins == old(wins)[h := w][p := old(wins)[p].(childId := w.id, children := old(wins)[p].children + [h])]
      ensures queue.Pending() == AfterPosts(old(queue.Pending()), if parent.Some? then Inval(wins, h) else [])
    {
      var id := ChooseId(parent);
      h := Spawn(NewWindow(title, flags, frame, parent, proc).(id := id), id);
    }

    /**
     * `create_window` once the id is chosen: w gets the next handle and is
     * linked in, the parent's `child_id` becoming `counter`, then it is
     * announced.
     */
    method Spawn(w: Window, counter: int) returns (h: Handle)
      requires Valid() && w.children == [] && Alive(w.parent, wins, {})
      modifies this, queue, queue.messages
      ensures Valid() && h !in old(wins) && h != STENCIL_TARGET
      ensures focused == Some(h) && captured == old(captured) && tracked == old(tracked)
      ensures if w.parent.None? then
          top == old(top) + [h] && wins == old(wins)[h := w]
        else
          var p := w.parent.value;
          top == old(top) && wins == old(wins)[h := w][p := old(wins)[p].(childId := counter, children := old(wins)[p].children + [h])]
      ensures queue.Pending() == AfterPosts(old(queue.Pending()), if w.parent.Some? then Inval(wins, h) else [])
    {
      h := nextHandle;
      Link(h, w, counter);
      Announce(h);
    }

    /** The id `create_window` gives: the parent's incremented `child_id`, or a free top-level id. */
    method ChooseId(parent: Option<Handle>) returns (id: int)
      requires (parent.Some? ==> parent.value in wins) && forall t | t in top :: t in wins
      ensures id == NewId(wins, top, parent)
    {
      if parent.Some? {
        id := wins[parent.value].childId + 1;
      } else {
        id := TopLevelId();
      }
    }

    /** The end of `create_window`: WM_CREATE, then a child is invalidated. */
    method Announce(h: Handle)
      requires Valid() && h in wins
      modifies this, queue, queue.messages
      ensures Valid() && wins == old(wins) && top == old(top) && nextHandle == old(nextHandle)
      ensures focused == old(focused) && captured == old(captured) && tracked == old(tracked)
      ensures queue.Pending() == AfterPosts(old(queue.Pending()), if wins[h].parent.Some? then Inval(wins, h) else [])
    {
      ghost var p := queue.Pending();
      var _ := Send(Some(h), WM_CREATE, 0, [], {});
      if wins[h].parent.Some? {
        Invalidate(h, {});
      } else {
        assert AfterPosts(p, []) == p;
      }
    }

    /** The linking half of `create_window`: `push_window` onto the parent's children or the global list, and the focus. */
    method Link(h: Handle, w: Window, counter: int)
      requires Valid() && h == nextHandle && w.children == [] && Alive(w.parent, wins, {})
      modifies this
      ensures Valid() && nextHandle == h + 1
      ensures focused == Some(h) && captured == old(captured) && tracked == old(tracked)
      ensures w.parent.None? ==> top == old(top) + [h] && wins == old(wins)[h := w]
      ensures w.parent.Some? ==>
        var p := w.parent.value;
        && top == old(top)
        && wins == old(wins)[h := w][p := old(wins)[p].(childId := counter, children := old(wins)[p].children + [h])]
    {
      if w.parent.Some? {
        LinkChild(h, w, counter);
      } else {
        LinkTop(h, w);
      }
      focused := Some(h);
    }

    /** `push_window(win, &parent->children)`, after `++parent->child_id`. */
    method LinkChild(h: Handle, w: Window, counter: int)
      requires Valid() && h == nextHandle && w.children == [] && w.parent.Some? && w.parent.value in wins
      modifies this
      ensures Valid() && nextHandle == h + 1
      ensures focused == old(focused) && captured == old(captured) && tracked == old(tracked) && top == old(top)
      ensures var p := w.parent.value;
        wins == old(wins)[h := w][p := old(wins)[p].(childId := counter, children := old(wins)[p].children + [h])]
    {
      var p := w.parent.value;
      ghost var w0, s0 := wins, shape;
      var wp := wins[p].(childId := counter, children := wins[p].children + [h]);
      var d := shape.depth[p] + 1;
      wins := wins[h := w][p := wp];
      shape := Shape(shape.depth[h := d], if d > shape.height then d else shape.height);
      nextHandle := nextHandle + 1;
      ChildValid(w0, s0, p, wp, h, w);
    }

    /** The desktop after a new child h of p was linked in. */
    lemma ChildValid(w0: Arena, s0: Shape, p: Handle, wp: Window, h: Handle, w: Window)
      requires queue.Valid() && Linked(w0, top, s0) && RootedExcept(w0, top, {})
      requires forall x | x in w0 :: 0 < x < h
      requires p in w0 && w.parent == Some(p) && w.children == []
      requires wp.parent == w0[p].parent && wp.children == w0[p].children + [h]
      requires Alive(focused, w0, {}) && Alive(captured, w0, {}) && Alive(tracked, w0, {})
      requires Addressed(queue.Pending(), w0, {}) && Owned(hooks.hooks, w0, {})
      requires wins == w0[h := w][p := wp] && nextHandle == h + 1
      requires shape == Shape(s0.depth[h := s0.depth[p] + 1], if s0.depth[p] + 1 > s0.height then s0.depth[p] + 1 else s0.height)
      ensures Valid()
    {
      ChildAdded(w0, top, s0, p, wp, h, w, focused, captured, tracked, queue.Pending(), hooks.hooks);
    }

    /** `push_window(win, &windows)`: the tail of the global list. */
    method LinkTop(h: Handle, w: Window)
      requires Valid() && h == nextHandle && w.children == [] && w.parent.None?
      modifies this
      ensures Valid() && nextHandle == h + 1
      ensures focused == old(focused) && captured == old(captured) && tracked == old(tracked)
      ensures top == old(top) + [h] && wins == old(wins)[h := w]
    {
      ghost var w0, t0, s0 := wins, top, shape;
      wins := wins[h := w];
      top := top + [h];
      shape := Shape(shape.depth[h := 0], shape.height);
      nextHandle := nextHandle + 1;
      TopValid(w0, t0, s0, h, w);
    }

    /** The desktop after a new top-level window h was appended to the list. */
    lemma TopValid(w0: Arena, t0: seq<Handle>, s0: Shape, h: Handle, w: Window)
      requires queue.Valid() && Sound(w0, t0, s0, {}, focused, captured, tracked, queue.Pending(), hooks.hooks, h)
      requires w.parent.None? && w.children == []
      requires wins == w0[h := w] && top == t0 + [h] && shape == Shape(s0.depth[h := 0], s0.height) && nextHandle == h + 1
      ensures Valid()
    {
      assert h !in w0 && h != STENCIL_TARGET;
      LinkedAddTop(w0, t0, s0, h, w, {});
      Survivors(queue.Pending(), hooks.hooks, w0, {}, wins, {});
    }

    /**
     * `create_window2`, as `load_window_children` needs it: the window gets
     * the frame computed for it and the definition's id, while the parent's
     * counter still advances by one. The source sets the id just after
     * WM_CREATE; procedures here do not read ids, so setting it first
     * changes nothing they see.
     */
    method CreateFromDef(d: WinDef, r: Rect, parent: Handle) returns (h: Handle)
      requires Valid() && parent in wins && d.proc.Some?
      modifies this, queue, queue.messages
      ensures Valid() && h !in old(wins) && wins.Keys == old(wins).Keys + {h} && top == old(top)
      ensures var wp := old(wins)[parent];
        wins == old(wins)[h := NewWindow(d.text, d.flags, r, Some(parent), d.proc.value).(id := d.id)]
                         [parent := wp.(childId := wp.childId + 1, children := wp.children + [h])]
    {
      h := Spawn(NewWindow(d.text, d.flags, r, Some(parent), d.proc.value).(id := d.id), wins[parent].childId + 1);
    }

    /**
     * `load_window_children`: the definitions up to the terminator are laid
     * out from (4, 4) in the client width of h, each one that is not a
     * space becoming a new child at the frame `Layout` gives it.
     */
    method LoadWindowChildren(h: Handle, defs: seq<WinDef>) returns (ghost made: seq<Handle>)
      requires Valid() && h in wins
      modifies this, queue, queue.messages
      ensures Valid() && h in wins && top == old(top)
      ensures wins[h].children == old(wins)[h].children + made
      ensures forall c | c in made :: c in wins && c !in old(wins)
      ensures Frames(wins, made) ==
        Layout(defs, old(wins)[h].frame.w, WINDOW_PADDING, WINDOW_PADDING, Bottom(old(wins), old(wins)[h].children, WINDOW_PADDING))
    {
      var fw := wins[h].frame.w;
      ChildrenAlive(h);
      ghost var bottom := Bottom(wins, wins[h].children, WINDOW_PADDING);
      ghost var goal := Layout(defs, fw, WINDOW_PADDING, WINDOW_PADDING, bottom);
      ghost var base := wins[h].children;
      ghost var frames: seq<Rect> := [];
      var x, y := WINDOW_PADDING, WINDOW_PADDING;
      var i := 0;
      made := [];
      while i < |defs| && defs[i].proc.Some?
        invariant Valid() && h in wins && top == old(top) && wins[h].frame.w == fw
        invariant i <= |defs| && WINDOW_PADDING <= y
        invariant wins[h].children == base + made
        invariant old(wins).Keys <= wins.Keys && forall c | c in made :: c in wins && c !in old(wins)
        invariant forall c | c in wins[h].children :: c in wins
        invariant Frames(wins, made) == frames && Bottom(wins, wins[h].children, WINDOW_PADDING) == bottom
        invariant frames + Layout(defs[i..], fw, x, y, bottom) == goal
        decreases |defs| - i
      {
        x, y, made, frames, bottom := PlaceNext(h, defs, i, fw, x, y, made, base, old(wins).Keys, frames, bottom, goal);
        i := i + 1;
      }
      assert Layout(defs[i..], fw, x, y, bottom) == [];
    }

    /**
     * One definition of `load_window_children`: break the line if needed,
     * then create the control. `frames` and `bottom` are the frames made so
     * far and the lowest child edge, which the layout of the rest continues.
     */
    method PlaceNext(h: Handle, defs: seq<WinDef>, i: nat, fw: int, x: int, y: int, ghost made: seq<Handle>,
                     ghost base: seq<Handle>, ghost keys: set<Handle>, ghost frames: seq<Rect>, ghost bottom: int,
                     ghost goal: seq<Rect>)
      returns (x': int, y': int, ghost made': seq<Handle>, ghost frames': seq<Rect>, ghost bottom': int)
      requires Valid() && h in wins && wins[h].frame.w == fw && WINDOW_PADDING <= y
      requires i < |defs| && defs[i].proc.Some?
      requires wins[h].children == base + made && forall c | c in wins[h].children :: c in wins
      requires keys <= wins.Keys && forall c | c in made :: c in wins && c !in keys
      requires Frames(wins, made) == frames && Bottom(wins, wins[h].children, WINDOW_PADDING) == bottom
      requires frames + Layout(defs[i..], fw, x, y, bottom) == goal
      modifies this, queue, queue.messages
      ensures Valid() && h in wins && top == old(top) && wins[h].frame.w == fw && WINDOW_PADDING <= y'
      ensures wins[h].children == base + made' && forall c | c in wins[h].children :: c in wins
      ensures keys <= wins.Keys && forall c | c in made' :: c in wins && c !in keys
      ensures Frames(wins, made') == frames' && Bottom(wins, wins[h].children, WINDOW_PADDING) == bottom'
      ensures frames' + Layout(defs[i + 1..], fw, x', y', bottom') == goal
    {
      var d := defs[i];
      var w, ht := DefWidth(d, fw), DefHeight(d);
      x', y' := NextPosition(h, d, fw, x, y);
      if d.proc == Some(SpaceProc) {
        LayoutAdvanceSpace(defs, i, fw, x, y, bottom, frames, x', y');
        made', frames', bottom' := made, frames, bottom;
      } else {
        var next := x' + w + LINE_PADDING;
        LayoutAdvance(defs, i, fw, x, y, bottom, frames, x', y', w, ht, next);
        made' := AddControl(h, d, Rect(x', y', w, ht), made, base, keys);
        frames', bottom' := frames + [Rect(x', y', w, ht)], Max(bottom, y' + ht);
        x' := next;
      }
    }

    /** `create_window2` for one control of `load_window_children`, with what the layout needs to know. */
    method AddControl(h: Handle, d: WinDef, r: Rect, ghost made: seq<Handle>, ghost base: seq<Handle>, ghost keys: set<Handle>)
      returns (ghost made': seq<Handle>)
      requires Valid() && h in wins && d.proc.Some?
      requires wins[h].children == base + made && forall c | c in wins[h].children :: c in wins
      requires keys <= wins.Keys && forall c | c in made :: c in wins && c !in keys
      modifies this, queue, queue.messages
      ensures Valid() && h in wins && top == old(top) && wins[h].frame == old(wins)[h].frame
      ensures wins[h].children == base + made'
      ensures keys <= wins.Keys && forall c | c in made' :: c in wins && c !in keys
      ensures forall c | c in wins[h].children :: c in wins
      ensures Frames(wins, made') == Frames(old(wins), made) + [r]
      ensures Bottom(wins, wins[h].children, WINDOW_PADDING) ==
        Max(Bottom(old(wins), old(wins)[h].children, WINDOW_PADDING), r.y + r.h)
    {
      ghost var w0 := wins;
      ghost var kids := wins[h].children;
      var c := CreateFromDef(d, r, h);
      made' := made + [c];
      assert kids + [c] == base + made';
      FramesAfterCreate(w0, wins, h, c, wins[c], wins[h], kids, made);
    }

    /** The line start of the next control, the new-line case scanning the children's bottom edges. */
    method NextPosition(h: Handle, d: WinDef, fw: int, x: int, y: int) returns (x': int, y': int)
      requires Valid() && h in wins && WINDOW_PADDING <= y
      ensures forall c | c in wins[h].children :: c in wins
      ensures (x', y') == LineStart(d, fw, x, y, Bottom(wins, wins[h].children, WINDOW_PADDING))
      ensures WINDOW_PADDING <= y'
    {
      ChildrenAlive(h);
      x', y' := x, y;
      if x + DefWidth(d, fw) > fw - WINDOW_PADDING || d.proc == Some(SpaceProc) {
        x' := WINDOW_PADDING;
        y' := ChildrenBottom(h, y);
        BottomFrom(wins, wins[h].children, WINDOW_PADDING, y);
        y' := y' + LINE_PADDING;
      }
    }

    /** The scan of `load_window_children` for the lowest child edge, starting from y. */
    method ChildrenBottom(h: Handle, y: int) returns (b: int)
      requires Valid() && h in wins
      ensures forall c | c in wins[h].children :: c in wins
      ensures b == Bottom(wins, wins[h].children, y)
    {
      var kids := wins[h].children;
      ChildrenAlive(h);
      b := y;
      for j := 0 to |kids|
        invariant b == Bottom(wins, kids[..j], y)
      {
        assert kids[..j + 1] == kids[..j] + [kids[j]];
        BottomSnoc(wins, kids[..j], kids[j], y);
        b := Max(b, wins[kids[j]].frame.y + wins[kids[j]].frame.h);
      }
      assert kids[..|kids|] == kids;
    }

    /**
     * `destroy_window` before its children: repaint the stencil, invalidate
     * what h covered, send WM_DESTROY, release the globals, then take h off
     * the global list, the hooks and the queue. h is then dying: nothing
     * but the arena names it.
     */
    method Detach(h: Handle, ghost dying: set<Handle>)
      requires Inv(dying) && h in wins && h !in dying
      modifies this, queue, queue.messages, hooks
      ensures Inv(dying + {h})
      ensures wins.Keys == old(wins).Keys && shape == old(shape) && nextHandle == old(nextHandle)
      ensures wins == Unfocused(old(wins), old(focused), focused)
      ensures top == RemoveFromGlobalList(old(top), h) && hooks.hooks == Without(old(hooks.hooks), h)
      ensures focused == Cleared(old(focused), h) && captured == Cleared(old(captured), h) && tracked == Cleared(old(tracked), h)
      ensures queue.Pending() ==
        PurgeAll(AfterPosts(old(queue.Pending()), DetachPosts(old(wins), old(top), old(focused), old(tracked), h)), {h})
    {
      ghost var p0 := queue.Pending();
      Farewell(h, dying);
      ghost var p1 := queue.Pending();
      Release(h, dying);
      AfterPostsSplit(p0, [Note(STENCIL_TARGET, WM_REFRESHSTENCIL)] + OverlapInvals(old(wins), old(top), h),
                      ReleasePosts(old(wins), old(focused), old(tracked), h));
      ghost var p2 := queue.Pending();
      Unlist(h, dying);
      PurgeAllOne(p2, h);
    }

    /**
     * `destroy_window(h)`: detach h, destroy its children first to last,
     * then free h. The arena loses exactly h's subtree; each global and
     * each hook that named a destroyed window is released.
     */
    method Destroy(h: Handle, ghost dying: set<Handle>) returns (ghost posts: seq<Msg>)
      requires Inv(dying) && h in wins && h !in dying
      requires forall d | d in dying :: !Below(wins, shape, h, d)
      modifies this, queue, queue.messages, hooks
      decreases shape.height - shape.depth[h], 3
      ensures Inv(dying) && nextHandle == old(nextHandle) && h !in wins
      ensures Pruned(old(wins), old(shape), wins, shape, h)
      ensures top == RemoveFromGlobalList(old(top), h)
      ensures focused == Dropped(old(focused), wins.Keys) && captured == Dropped(old(captured), wins.Keys)
      ensures tracked == Dropped(old(tracked), wins.Keys)
      ensures hooks.hooks == Surviving(old(hooks.hooks), wins.Keys)
      ensures DetachPosts(old(wins), old(top), old(focused), old(tracked), h) <= posts
      ensures Addressed(posts, old(wins), dying)
      ensures queue.Pending() == PurgeAll(AfterPosts(old(queue.Pending()), posts), old(wins).Keys - wins.Keys)
    {
      ghost var w0, s0 := wins, shape;
      ghost var p0 := queue.Pending();
      ghost var d := DetachPosts(w0, top, focused, tracked, h);
      DetachPostsAddressed(w0, top, s0, dying, focused, tracked, h);
      ClearingStart(w0, s0, top, h, focused);
      Detach(h, dying);
      ghost var ps := Dismantle(h, dying, w0, s0, old(hooks.hooks), old(focused), old(captured), old(tracked));
      DestroyRounds(p0, d, ps, w0, wins.Keys, dying, h);
      posts := d + ps;
    }

    /** The end of `destroy_window(h)`, once h is detached: clear its children, then free it. */
    method Dismantle(h: Handle, ghost dying: set<Handle>, ghost w0: Arena, ghost s0: Shape,
                     ghost hs: seq<Hook>, ghost f: Option<Handle>, ghost c: Option<Handle>, ghost k: Option<Handle>)
      returns (ghost posts: seq<Msg>)
      requires Inv(dying + {h}) && h !in dying && Clearing(w0, s0, wins, shape, h)
      requires forall d | d in dying :: d in w0 && !Below(w0, s0, h, d)
      requires hooks.hooks == Without(hs, h)
      requires focused == Cleared(f, h) && captured == Cleared(c, h) && tracked == Cleared(k, h)
      modifies this, queue, queue.messages, hooks
      decreases s0.height - s0.depth[h], 2
      ensures Inv(dying) && Pruned(w0, s0, wins, shape, h) && h !in wins
      ensures top == old(top) && nextHandle == old(nextHandle)
      ensures focused == Dropped(f, wins.Keys) && captured == Dropped(c, wins.Keys) && tracked == Dropped(k, wins.Keys)
      ensures hooks.hooks == Surviving(hs, wins.Keys)
      ensures Addressed(posts, old(wins), dying + {h})
      ensures queue.Pending() == PurgeAll(AfterPosts(old(queue.Pending()), posts), old(wins).Keys - wins.Keys)
    {
      posts := ClearChildren(h, dying, w0, s0);
      FreedRound(AfterPosts(old(queue.Pending()), posts), queue.Pending(), old(wins).Keys, wins, dying, h);
      SurvivingWithout(hs, h, wins.Keys);
      DroppedCleared(f, h, wins.Keys);
      DroppedCleared(c, h, wins.Keys);
      DroppedCleared(k, h, wins.Keys);
      ClearDone(w0, s0, wins, shape, top, h);
      ghost var live := wins.Keys - {h};
      Free(h, dying);
      assert wins.Keys == live;
    }

    /**
     * `clear_window_children(h)`: destroy each child of h, first to last,
     * until h's list is empty.
     */
    method ClearChildren(h: Handle, ghost dying: set<Handle>, ghost w0: Arena, ghost s0: Shape)
      returns (ghost posts: seq<Msg>)
      requires Inv(dying + {h}) && h !in dying && Clearing(w0, s0, wins, shape, h)
      requires forall d | d in dying :: d in w0 && !Below(w0, s0, h, d)
      modifies this, queue, queue.messages, hooks
      decreases s0.height - s0.depth[h], 1
      ensures Inv(dying + {h}) && Clearing(w0, s0, wins, shape, h) && wins[h].children == []
      ensures top == old(top) && nextHandle == old(nextHandle)
      ensures focused == Dropped(old(focused), wins.Keys) && captured == Dropped(old(captured), wins.Keys)
      ensures tracked == Dropped(old(tracked), wins.Keys)
      ensures hooks.hooks == Surviving(old(hooks.hooks), wins.Keys)
      ensures Addressed(posts, old(wins), dying + {h})
      ensures queue.Pending() == PurgeAll(AfterPosts(old(queue.Pending()), posts), old(wins).Keys - wins.Keys)
    {
      SurvivingAll(hooks.hooks, wins.Keys);
      posts := [];
      PurgeAllMissing(queue.Pending(), {});
      while wins[h].children != []
        invariant Inv(dying + {h}) && Clearing(w0, s0, wins, shape, h)
        invariant top == old(top) && nextHandle == old(nextHandle)
        invariant focused == Dropped(old(focused), wins.Keys) && captured == Dropped(old(captured), wins.Keys)
        invariant tracked == Dropped(old(tracked), wins.Keys)
        invariant hooks.hooks == Surviving(old(hooks.hooks), wins.Keys)
        invariant wins.Keys <= old(wins).Keys && Addressed(posts, old(wins), dying + {h})
        invariant queue.Pending() == PurgeAll(AfterPosts(old(queue.Pending()), posts), old(wins).Keys - wins.Keys)
        decreases |wins[h].children|
      {
        ghost var w1 := wins;
        ghost var keys := wins.Keys;
        ghost var ps := DestroyFirstChild(h, dying, w0, s0);
        SurvivingTwice(old(hooks.hooks), keys, wins.Keys);
        ClearRound(old(queue.Pending()), posts, ps, old(wins), w1, wins.Keys, dying + {h});
        posts := posts + ps;
      }
    }

    /** One pass of `clear_window_children(h)`: destroy the first child still listed. */
    method DestroyFirstChild(h: Handle, ghost dying: set<Handle>, ghost w0: Arena, ghost s0: Shape)
      returns (ghost posts: seq<Msg>)
      requires Inv(dying + {h}) && h !in dying && Clearing(w0, s0, wins, shape, h) && wins[h].children != []
      requires forall d | d in dying :: d in w0 && !Below(w0, s0, h, d)
      modifies this, queue, queue.messages, hooks
      decreases s0.height - s0.depth[h], 0
      ensures Inv(dying + {h}) && Clearing(w0, s0, wins, shape, h)
      ensures |wins[h].children| < |old(wins)[h].children| && wins.Keys <= old(wins).Keys
      ensures top == old(top) && nextHandle == old(nextHandle)
      ensures focused == Dropped(old(focused), wins.Keys) && captured == Dropped(old(captured), wins.Keys)
      ensures tracked == Dropped(old(tracked), wins.Keys)
      ensures hooks.hooks == Surviving(old(hooks.hooks), wins.Keys)
      ensures Addressed(posts, old(wins), dying + {h})
      ensures queue.Pending() == PurgeAll(AfterPosts(old(queue.Pending()), posts), old(wins).Keys - wins.Keys)
    {
      var c := wins[h].children[0];
      ghost var w1, s1 := wins, shape;
      OutsideChildren(w0, s0, w1, s1, top, h, c, dying);
      posts := Destroy(c, dying + {h});
      ClearStep(w0, s0, w1, s1, wins, shape, top, h, c);
      ChildGone(w1, s1, wins, shape, top, h, c);
    }

    /** The final `free(win)` of `destroy_window`, once h's children are gone. */
    method Free(h: Handle, ghost dying: set<Handle>)
      requires Inv(dying + {h}) && h !in dying && h in wins && wins[h].children == []
      modifies this
      ensures Inv(dying) && wins == Unlinked(old(wins), h) && shape == Shape(old(shape).depth - {h}, old(shape).height)
      ensures top == old(top) && nextHandle == old(nextHandle)
      ensures focused == old(focused) && captured == old(captured) && tracked == old(tracked)
    {
      SoundFreed(wins, top, shape, dying, focused, captured, tracked, queue.Pending(), hooks.hooks, nextHandle, h);
      wins := Unlinked(wins, h);
      shape := Shape(shape.depth - {h}, shape.height);
    }

    /** The first steps of `destroy_window`: the stencil repaint, the overlap invalidations and WM_DESTROY. */
    method Farewell(h: Handle, ghost dying: set<Handle>)
      requires Inv(dying) && h in wins && h !in dying
      modifies this, queue, queue.messages
      ensures Inv(dying) && wins == old(wins) && top == old(top) && shape == old(shape) && nextHandle == old(nextHandle)
      ensures focused == old(focused) && captured == old(captured) && tracked == old(tracked)
      ensures queue.Pending() ==
        AfterPosts(old(queue.Pending()), [Note(STENCIL_TARGET, WM_REFRESHSTENCIL)] + OverlapInvals(wins, top, h))
    {
      ghost var p := queue.Pending();
      Post(Note(STENCIL_TARGET, WM_REFRESHSTENCIL), dying);
      assert [Note(STENCIL_TARGET, WM_REFRESHSTENCIL)][1..] == [];
      InvalidateOverlaps(h, dying);
      AfterPostsSplit(p, [Note(STENCIL_TARGET, WM_REFRESHSTENCIL)], OverlapInvals(wins, top, h));
      var _ := Send(Some(h), WM_DESTROY, 0, [], dying);
    }

    /** The three removals of `destroy_window`: the global list, the hooks and the queue. */
    method Unlist(h: Handle, ghost dying: set<Handle>)
      requires Inv(dying) && h in wins && h !in dying
      requires focused != Some(h) && captured != Some(h) && tracked != Some(h)
      modifies this, queue.messages, hooks
      ensures Inv(dying + {h}) && wins == old(wins) && shape == old(shape) && nextHandle == old(nextHandle)
      ensures focused == old(focused) && captured == old(captured) && tracked == old(tracked)
      ensures top == RemoveFromGlobalList(old(top), h) && hooks.hooks == Without(old(hooks.hooks), h)
      ensures queue.Pending() == Purge(old(queue.Pending()), h)
    {
      ghost var t0, hs0, p0 := top, hooks.hooks, queue.Pending();
      top := RemoveFromGlobalList(top, h);
      hooks.Remove(h);
      queue.Remove(h);
      Unlisted(t0, hs0, p0, h, dying);
    }

    /** After the removals, h may join the dying windows. */
    lemma Unlisted(t0: seq<Handle>, hs0: seq<Hook>, p0: seq<Msg>, h: Handle, dying: set<Handle>)
      requires Sound(wins, t0, shape, dying, focused, captured, tracked, p0, hs0, nextHandle)
      requires h in wins && h !in dying && focused != Some(h) && captured != Some(h) && tracked != Some(h)
      requires queue.Valid() && top == RemoveFromGlobalList(t0, h)
      requires hooks.hooks == Without(hs0, h) && queue.Pending() == Purge(p0, h)
      ensures Inv(dying + {h})
    {
      LinkedUnlist(wins, t0, shape, h, dying);
      AddressedPurge(p0, h, wins, dying);
    }
  }
}
