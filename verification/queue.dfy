/**
 * The deferred message queue of user/message.c: 256 slots indexed by two
 * 8-bit counters. `post_message` coalesces an earlier pending message with
 * the same target and kind, `repost_messages` drains the messages pending
 * when it starts, and `remove_from_global_queue` forgets a window.
 *
 * A slot whose target is None stands for a slot whose target was set to
 * NULL: it stays in place and is skipped when the queue is drained.
 */
module Queue {
  import opened Wrappers
  import opened Messages
  import opened User

  const QUEUE_SIZE: int := 0x100

  /** `msg_t`; `lparam` is NULL or a window pointer. */
  datatype Msg = Msg(target: Option<Handle>, kind: int, wparam: int, lparam: Option<Handle>)

  const EmptySlot: Msg := Msg(None, 0, 0, None)

  /** The pending slots with `target == t && msg == k` lose their target. */
  function Coalesce(p: seq<Msg>, t: Option<Handle>, k: int): (r: seq<Msg>)
    ensures |r| == |p|
    ensures forall i :: 0 <= i < |p| ==>
      r[i] == if p[i].target == t && p[i].kind == k then p[i].(target := None) else p[i]
  {
    seq(|p|, i requires 0 <= i < |p| => if p[i].target == t && p[i].kind == k then p[i].(target := None) else p[i])
  }

  /** The pending slots targeting window h lose their target. */
  function Purge(p: seq<Msg>, h: Handle): (r: seq<Msg>)
    ensures |r| == |p|
    ensures forall i :: 0 <= i < |p| ==>
      r[i] == if p[i].target == Some(h) then p[i].(target := None) else p[i]
  {
    seq(|p|, i requires 0 <= i < |p| => if p[i].target == Some(h) then p[i].(target := None) else p[i])
  }

  /** The pending sequence after one post: 255 pending posts wrap the queue to empty. */
  function AfterPost(p: seq<Msg>, m: Msg): seq<Msg>
    requires |p| < QUEUE_SIZE
  {
    if |p| == QUEUE_SIZE - 1 then [] else Coalesce(p, m.target, m.kind) + [m]
  }

  /** The pending sequence after posting ms in order. */
  function AfterPosts(p: seq<Msg>, ms: seq<Msg>): (r: seq<Msg>)
    requires |p| < QUEUE_SIZE
    ensures |r| < QUEUE_SIZE
    decreases |ms|
  {
    if ms == [] then p else AfterPosts(AfterPost(p, ms[0]), ms[1..])
  }

  /** The live (non-cleared) messages among p that target t with kind k. */
  function Live(p: seq<Msg>, t: Option<Handle>, k: int): (n: nat)
    ensures n <= |p|
  {
    if p == [] then 0 else Live(p[..|p| - 1], t, k) + (if p[|p| - 1].target == t && p[|p| - 1].kind == k then 1 else 0)
  }

  lemma {:induction false} LiveAppend(p: seq<Msg>, q: seq<Msg>, t: Option<Handle>, k: int)
    ensures Live(p + q, t, k) == Live(p, t, k) + Live(q, t, k)
    decreases |q|
  {
    if q == [] {
      assert p + q == p;
    } else {
      assert (p + q)[..|p + q| - 1] == p + q[..|q| - 1];
      LiveAppend(p, q[..|q| - 1], t, k);
    }
  }

  lemma {:induction false} CoalesceClears(p: seq<Msg>, t: Option<Handle>, k: int)
    requires t.Some?
    ensures Live(Coalesce(p, t, k), t, k) == 0
    decreases |p|
  {
    if p != [] {
      assert Coalesce(p, t, k)[..|p| - 1] == Coalesce(p[..|p| - 1], t, k);
      CoalesceClears(p[..|p| - 1], t, k);
    }
  }

  /** After posting to a window, exactly one live message for that (target, kind) is pending. */
  lemma PostLeavesOneLive(p: seq<Msg>, m: Msg)
    requires |p| < QUEUE_SIZE - 1 && m.target.Some?
    ensures Live(AfterPost(p, m), m.target, m.kind) == 1
    ensures AfterPost(p, m)[|p|] == m
  {
    CoalesceClears(p, m.target, m.kind);
    LiveAppend(Coalesce(p, m.target, m.kind), [m], m.target, m.kind);
    assert [m][..0] == [];
  }

  /** 256 posts on an empty queue with no flush leave it reading as empty. */
  lemma {:induction false} WrapAround(ms: seq<Msg>)
    requires |ms| == QUEUE_SIZE
    ensures AfterPosts([], ms[..QUEUE_SIZE - 1]) != [] || QUEUE_SIZE - 1 == 0
    ensures AfterPosts([], ms) == []
  {
    FillLength([], ms[..QUEUE_SIZE - 1]);
    AfterPostsSplit([], ms[..QUEUE_SIZE - 1], [ms[QUEUE_SIZE - 1]]);
    assert ms[..QUEUE_SIZE - 1] + [ms[QUEUE_SIZE - 1]] == ms;
    assert [ms[QUEUE_SIZE - 1]][1..] == [];
  }

  /** Posting n messages to a queue with room for them makes it n longer. */
  lemma {:induction false} FillLength(p: seq<Msg>, ms: seq<Msg>)
    requires |p| + |ms| < QUEUE_SIZE
    ensures |AfterPosts(p, ms)| == |p| + |ms|
    decreases |ms|
  {
    if ms != [] {
      FillLength(AfterPost(p, ms[0]), ms[1..]);
    }
  }

  lemma {:induction false} AfterPostsSplit(p: seq<Msg>, ms: seq<Msg>, ns: seq<Msg>)
    requires |p| < QUEUE_SIZE
    ensures AfterPosts(p, ms + ns) == AfterPosts(AfterPosts(p, ms), ns)
    decreases |ms|
  {
    if ms == [] {
      assert ms + ns == ns;
    } else {
      assert (ms + ns)[1..] == ms[1..] + ns;
      AfterPostsSplit(AfterPost(p, ms[0]), ms[1..], ns);
    }
  }

  /** The pending slots targeting any window of `gone` lose their target. */
  function PurgeAll(p: seq<Msg>, gone: set<Handle>): (r: seq<Msg>)
    ensures |r| == |p|
    ensures forall i :: 0 <= i < |p| ==>
      r[i] == if p[i].target.Some? && p[i].target.value in gone then p[i].(target := None) else p[i]
  {
    seq(|p|, i requires 0 <= i < |p| =>
      if p[i].target.Some? && p[i].target.value in gone then p[i].(target := None) else p[i])
  }

  /** No message of p targets a window of `gone`. */
  predicate Avoids(p: seq<Msg>, gone: set<Handle>) {
    forall m | m in p :: m.target.None? || m.target.value !in gone
  }

  /** Forgetting one window is forgetting the set that holds only it. */
  lemma PurgeAllOne(p: seq<Msg>, h: Handle)
    ensures Purge(p, h) == PurgeAll(p, {h})
  {
  }

  /** Forgetting a set of windows and then another is forgetting both at once. */
  lemma PurgeAllUnion(p: seq<Msg>, a: set<Handle>, b: set<Handle>)
    ensures PurgeAll(PurgeAll(p, a), b) == PurgeAll(p, a + b)
  {
  }

  /** Forgetting windows no message names changes nothing. */
  lemma PurgeAllMissing(p: seq<Msg>, gone: set<Handle>)
    requires Avoids(p, gone)
    ensures PurgeAll(p, gone) == p
  {
    assert forall i | 0 <= i < |p| :: p[i] in p;
  }

  /**
   * Posting a message that names none of the forgotten windows commutes
   * with forgetting them: coalescing and forgetting clear disjoint slots,
   * and neither changes the length, so the ring wraps the same way.
   */
  lemma PurgeAllPost(p: seq<Msg>, m: Msg, gone: set<Handle>)
    requires |p| < QUEUE_SIZE && (m.target.None? || m.target.value !in gone)
    ensures PurgeAll(AfterPost(p, m), gone) == AfterPost(PurgeAll(p, gone), m)
  {
    if |p| < QUEUE_SIZE - 1 {
      assert Coalesce(PurgeAll(p, gone), m.target, m.kind) == PurgeAll(Coalesce(p, m.target, m.kind), gone);
    }
  }

  /** Posting messages that name none of the forgotten windows commutes with forgetting them. */
  lemma {:induction false} PurgeAllPosts(p: seq<Msg>, ms: seq<Msg>, gone: set<Handle>)
    requires |p| < QUEUE_SIZE && Avoids(ms, gone)
    ensures AfterPosts(PurgeAll(p, gone), ms) == PurgeAll(AfterPosts(p, ms), gone)
    decreases |ms|
  {
    if ms != [] {
      assert ms[0] in ms;
      PurgeAllPost(p, ms[0], gone);
      assert forall m | m in ms[1..] :: m in ms;
      PurgeAllPosts(AfterPost(p, ms[0]), ms[1..], gone);
    }
  }

  /**
   * Two rounds of posting and forgetting are one: the posts of the
   * second round, which name none of the windows the first round
   * forgot, may be made before anything is forgotten.
   */
  lemma PurgedRounds(p: seq<Msg>, ms: seq<Msg>, ns: seq<Msg>, a: set<Handle>, b: set<Handle>)
    requires |p| < QUEUE_SIZE && Avoids(ns, a)
    ensures PurgeAll(AfterPosts(PurgeAll(AfterPosts(p, ms), a), ns), b) == PurgeAll(AfterPosts(p, ms + ns), a + b)
  {
    PurgeAllPosts(AfterPosts(p, ms), ns, a);
    PurgeAllUnion(AfterPosts(AfterPosts(p, ms), ns), a, b);
    AfterPostsSplit(p, ms, ns);
  }

  /** The slot `k` places after `read`, wrapping at 256 (8-bit index arithmetic). */
  function Slot(read: nat, k: nat): (r: nat)
    requires read < QUEUE_SIZE && k < QUEUE_SIZE
    ensures r < QUEUE_SIZE && r == (read + k) % QUEUE_SIZE
  {
    if read + k < QUEUE_SIZE then read + k else read + k - QUEUE_SIZE
  }

  /** Slot k lies among the n slots starting at `read`. */
  predicate InWindow(read: nat, n: nat, k: nat)
    requires read < QUEUE_SIZE && n < QUEUE_SIZE
  {
    if read + n <= QUEUE_SIZE then read <= k < read + n else read <= k || k < read + n - QUEUE_SIZE
  }

  /** Only slots inside the window of n slots from `read` differ between a and b. */
  ghost predicate Untouched(a: seq<Msg>, b: seq<Msg>, read: nat, n: nat)
    requires |a| == |b| == QUEUE_SIZE && read < QUEUE_SIZE && n < QUEUE_SIZE
  {
    forall j | 0 <= j < QUEUE_SIZE && !InWindow(read, n, j) :: a[j] == b[j]
  }

  /** The n slots of `slots` starting at `read`, in ring order. */
  function RingWindow(slots: seq<Msg>, read: nat, n: nat): (p: seq<Msg>)
    requires |slots| == QUEUE_SIZE && read < QUEUE_SIZE && n < QUEUE_SIZE
    ensures |p| == n && forall k :: 0 <= k < n ==> p[k] == slots[Slot(read, k)]
  {
    seq(n, k requires 0 <= k < n => slots[Slot(read, k)])
  }

  /** One step of the flush, as `FlushFrom` unfolds it. */
  lemma FlushStep(rest: seq<Msg>, tail: seq<Msg>, react: Msg -> seq<Msg>)
    requires rest != []
    ensures var m := rest[0];
      var d := FlushFrom(rest, tail, react);
      var e := FlushFrom(rest[1..], tail, react);
      var (r, t) := PostAllDuring(rest[1..], tail, react(m));
      var f := FlushFrom(r, t, react);
      if m.target.None? then d == e
      else if m.kind == WM_REFRESHSTENCIL then d == e.(repaints := e.repaints + 1)
      else d == f.(delivered := [m] + f.delivered)
  {
  }

  /** Only zero places after `read` is `read` itself. */
  lemma SlotZero(read: nat, k: nat)
    requires read < QUEUE_SIZE && k < QUEUE_SIZE && Slot(read, k) == read
    ensures k == 0
  {
  }

  /** Advancing `read` by one keeps the stop slot `n - 1` places ahead. */
  lemma SlotStep(read: nat, n: nat)
    requires read < QUEUE_SIZE && 0 < n < QUEUE_SIZE
    ensures Slot(Slot(read, 1), n - 1) == Slot(read, n)
  {
  }

  /** The slots r more deliveries may post into, `bound` each: r * bound, counted one delivery at a time. */
  ghost function Room(r: nat, bound: nat): (n: nat)
  {
    if r == 0 then 0 else bound + Room(r - 1, bound)
  }

  lemma {:induction false} RoomIsProduct(r: nat, bound: nat)
    ensures Room(r, bound) == r * bound
  {
    if r > 0 {
      RoomIsProduct(r - 1, bound);
    }
  }

  /** What a flush has delivered and repainted so far, followed by what the rest will, is the whole flush `goal`. */
  ghost predicate Tally(goal: Drained, rest: seq<Msg>, tail: seq<Msg>, react: Msg -> seq<Msg>, delivered: seq<Msg>, repaints: nat) {
    var d := FlushFrom(rest, tail, react);
    goal == Drained(d.pending, delivered + d.delivered, repaints + d.repaints)
  }

  /** What the flush has delivered and repainted so far, plus what the rest will, stays the whole flush. */
  lemma Tallied(d: Drained, e: Drained, m: Msg, delivered: seq<Msg>, repaints: nat, delivered': seq<Msg>, repaints': nat)
    requires e == if m.target.None? then d
      else if m.kind == WM_REFRESHSTENCIL then d.(repaints := d.repaints + 1)
      else d.(delivered := [m] + d.delivered)
    requires delivered' == if m.target.Some? && m.kind != WM_REFRESHSTENCIL then delivered + [m] else delivered
    requires repaints' == if m.target.Some? && m.kind == WM_REFRESHSTENCIL then repaints + 1 else repaints
    ensures Drained(e.pending, delivered + e.delivered, repaints + e.repaints)
      == Drained(d.pending, delivered' + d.delivered, repaints' + d.repaints)
  {
    if m.target.Some? && m.kind != WM_REFRESHSTENCIL {
      assert delivered + ([m] + d.delivered) == delivered + [m] + d.delivered;
    }
  }

  /** Coalescing distributes over the two parts of a split queue. */
  lemma CoalesceAppend(p: seq<Msg>, q: seq<Msg>, t: Option<Handle>, k: int)
    ensures Coalesce(p + q, t, k) == Coalesce(p, t, k) + Coalesce(q, t, k)
  {
  }

  /**
   * Posting ms while a flush has `rest` still to deliver and `tail` already
   * posted: each post clears its duplicates in both parts and joins the tail.
   */
  function PostAllDuring(rest: seq<Msg>, tail: seq<Msg>, ms: seq<Msg>): (r: (seq<Msg>, seq<Msg>))
    ensures |r.0| == |rest| && |r.1| == |tail| + |ms|
    decreases |ms|
  {
    if ms == [] then (rest, tail)
    else
      var (r, t) := PostAllDuring(rest, tail, ms[..|ms| - 1]);
      var m := ms[|ms| - 1];
      (Coalesce(r, m.target, m.kind), Coalesce(t, m.target, m.kind) + [m])
  }

  /** What a flush leaves pending, what it delivers (in order), and how often it repaints the stencil. */
  datatype Drained = Drained(pending: seq<Msg>, delivered: seq<Msg>, repaints: nat)

  /**
   * `repost_messages` on values: `rest` are the slots pending when the flush
   * started and not yet read, `tail` the messages posted since. A delivered
   * message makes its procedure post `react(m)`.
   */
  function FlushFrom(rest: seq<Msg>, tail: seq<Msg>, react: Msg -> seq<Msg>): (d: Drained)
    ensures |d.pending| >= |tail|
    decreases |rest|
  {
    if rest == [] then Drained(tail, [], 0)
    else
      var m := rest[0];
      if m.target.None? then FlushFrom(rest[1..], tail, react)
      else if m.kind == WM_REFRESHSTENCIL then
        var d := FlushFrom(rest[1..], tail, react);
        d.(repaints := d.repaints + 1)
      else
        var (r, t) := PostAllDuring(rest[1..], tail, react(m));
        var d := FlushFrom(r, t, react);
        d.(delivered := [m] + d.delivered)
  }

  /** The messages of p a flush with no reactions delivers: live and not a stencil refresh. */
  function Deliverable(p: seq<Msg>): (r: seq<Msg>)
    ensures |r| <= |p|
  {
    if p == [] then []
    else if p[0].target.None? || p[0].kind == WM_REFRESHSTENCIL then Deliverable(p[1..])
    else [p[0]] + Deliverable(p[1..])
  }

  /** The number of posts the delivered messages make. */
  function Reactions(ms: seq<Msg>, react: Msg -> seq<Msg>): nat {
    if ms == [] then 0 else |react(ms[0])| + Reactions(ms[1..], react)
  }

  /** With procedures that post nothing, a flush delivers exactly the deliverable messages, in order, and empties the queue. */
  lemma {:induction false} FlushWithoutReactions(p: seq<Msg>, react: Msg -> seq<Msg>)
    requires forall m :: react(m) == []
    ensures FlushFrom(p, [], react).delivered == Deliverable(p)
    ensures FlushFrom(p, [], react).pending == []
    decreases |p|
  {
    if p != [] {
      FlushWithoutReactions(p[1..], react);
    }
  }

  /** Everything posted during a flush is still pending after it: one slot per post. */
  lemma {:induction false} PostedDuringFlushStayPending(rest: seq<Msg>, tail: seq<Msg>, react: Msg -> seq<Msg>)
    ensures |FlushFrom(rest, tail, react).pending| == |tail| + Reactions(FlushFrom(rest, tail, react).delivered, react)
    decreases |rest|
  {
    if rest != [] {
      var m := rest[0];
      if m.target.None? || m.kind == WM_REFRESHSTENCIL {
        PostedDuringFlushStayPending(rest[1..], tail, react);
      } else {
        var (r, t) := PostAllDuring(rest[1..], tail, react(m));
        PostedDuringFlushStayPending(r, t, react);
        assert ([m] + FlushFrom(r, t, react).delivered)[1..] == FlushFrom(r, t, react).delivered;
      }
    }
  }

  /** A flush delivers only messages that were live in the queue when it started. */
  lemma {:induction false} FlushDeliversOnlyPending(rest: seq<Msg>, tail: seq<Msg>, react: Msg -> seq<Msg>, p: seq<Msg>)
    requires forall i :: 0 <= i < |rest| && rest[i].target.Some? ==> rest[i] in p
    ensures forall m :: m in FlushFrom(rest, tail, react).delivered ==> m in p && m.target.Some?
    decreases |rest|
  {
    if rest != [] {
      var m := rest[0];
      if m.target.None? || m.kind == WM_REFRESHSTENCIL {
        FlushDeliversOnlyPending(rest[1..], tail, react, p);
      } else {
        var (r, t) := PostAllDuring(rest[1..], tail, react(m));
        PostAllDuringOnlyClears(rest[1..], tail, react(m));
        FlushDeliversOnlyPending(r, t, react, p);
      }
    }
  }

  /** Posting during a flush only clears targets in the undelivered part. */
  lemma {:induction false} PostAllDuringOnlyClears(rest: seq<Msg>, tail: seq<Msg>, ms: seq<Msg>)
    ensures forall i :: 0 <= i < |rest| ==>
      PostAllDuring(rest, tail, ms).0[i] == rest[i] || PostAllDuring(rest, tail, ms).0[i].target.None?
    decreases |ms|
  {
    if ms != [] {
      PostAllDuringOnlyClears(rest, tail, ms[..|ms| - 1]);
    }
  }

  /** The static `queue`: the slot array and its 8-bit read and write indices. */
  class MessageQueue {
    const messages: array<Msg>
    var read: nat
    var write: nat

    ghost predicate Valid()
      reads this
    {
      messages.Length == QUEUE_SIZE && read < QUEUE_SIZE && write < QUEUE_SIZE
    }

    /** The zero-initialised queue. */
    constructor ()
      ensures Valid() && read == 0 && write == 0 && Pending() == []
      ensures fresh(messages)
    {
      messages := new Msg[QUEUE_SIZE](_ => EmptySlot);
      read, write := 0, 0;
    }

    /** The number of pending slots, `(uint8_t)(write - read)`. */
    function Count(): (n: nat)
      requires Valid()
      reads this
      ensures n < QUEUE_SIZE && n == (write - read) % QUEUE_SIZE
      ensures Slot(read, n) == write
    {
      if read <= write then write - read else write + QUEUE_SIZE - read
    }

    /** The slots from `read` up to `write`, oldest first. */
    function Pending(): (p: seq<Msg>)
      requires Valid()
      reads this, messages
      ensures |p| == Count()
      ensures forall k :: 0 <= k < |p| ==> p[k] == messages[Slot(read, k)]
    {
      RingWindow(messages[..], read, Count())
    }
    /** `post_message` */
    method Post(m: Msg)
      requires Valid()
      modifies this, messages
      ensures Valid() && read == old(read) && write == Slot(old(write), 1)
      ensures Pending() == AfterPost(old(Pending()), m)
      ensures messages[old(write)] == m
      ensures forall k :: 0 <= k < QUEUE_SIZE && k != old(write) && !InWindow(read, old(Count()), k) ==> messages[k] == old(messages[k])
    {
      ghost var p := Pending();
      var n := Count();
      ClearMatching(m.target, m.kind);
      ghost var before := messages[..];
      messages[write] := m;
      write := Slot(write, 1);
      PostStep(before, messages[..], read, n, p, m);
    }

    /** The loop of `post_message` that clears the pending slots with the new message's target and kind. */
    method ClearMatching(t: Option<Handle>, k: int)
      requires Valid()
      modifies messages
      ensures Valid() && Pending() == Coalesce(old(Pending()), t, k)
      ensures Untouched(old(messages[..]), messages[..], read, Count())
    {
      ghost var p := Pending();
      ghost var orig := messages[..];
      var n := Count();
      var i := 0;
      while i < n
        invariant Valid() && 0 <= i <= n && n == |p| == Count()
        invariant RingWindow(messages[..], read, n) == Coalesce(p[..i], t, k) + p[i..]
        invariant Untouched(orig, messages[..], read, n)
      {
        ClearAt(i, t, k, p, orig);
        i := i + 1;
      }
      assert p[..n] == p;
    }

    /** One iteration of the loop: the i-th pending slot loses its target if it matches. */
    method ClearAt(i: nat, t: Option<Handle>, k: int, ghost p: seq<Msg>, ghost orig: seq<Msg>)
      requires Valid() && i < Count() == |p| && |orig| == QUEUE_SIZE
      requires RingWindow(messages[..], read, |p|) == Coalesce(p[..i], t, k) + p[i..]
      requires Untouched(orig, messages[..], read, |p|)
      modifies messages
      ensures RingWindow(messages[..], read, |p|) == Coalesce(p[..i + 1], t, k) + p[i + 1..]
      ensures Untouched(orig, messages[..], read, |p|)
    {
      var r := Slot(read, i);
      ghost var before := messages[..];
      if messages[r].target == t && messages[r].kind == k {
        messages[r] := messages[r].(target := None);
      }
      CoalesceStep(before, messages[..], read, |p|, i, p, t, k);
    }

    /** One iteration of the loop of `remove_from_global_queue`. */
    method PurgeAt(i: nat, h: Handle, ghost p: seq<Msg>, ghost orig: seq<Msg>)
      requires Valid() && i < Count() == |p| && |orig| == QUEUE_SIZE
      requires RingWindow(messages[..], read, |p|) == Purge(p[..i], h) + p[i..]
      requires Untouched(orig, messages[..], read, |p|)
      modifies messages
      ensures RingWindow(messages[..], read, |p|) == Purge(p[..i + 1], h) + p[i + 1..]
      ensures Untouched(orig, messages[..], read, |p|)
    {
      var r := Slot(read, i);
      ghost var before := messages[..];
      if messages[r].target == Some(h) {
        messages[r] := messages[r].(target := None);
      }
      PurgeStep(before, messages[..], read, |p|, i, p, h);
    }

    /**
     * `repost_messages`: `write` is sampled once; each slot up to it is read
     * in FIFO order. Cleared slots are skipped, WM_REFRESHSTENCIL repaints
     * the stencil, and every other message is delivered, its procedure
     * posting `react(m)`. The procedures may post at most `bound` messages
     * each and the queue must have room for all of them.
     */
    method Flush(react: Msg -> seq<Msg>, ghost bound: nat) returns (delivered: seq<Msg>, repaints: nat)
      requires Valid()
      requires forall m :: |react(m)| <= bound
      requires Count() + Room(Count(), bound) < QUEUE_SIZE
      modifies this, messages
      ensures Valid() && read == old(write)
      ensures var d := FlushFrom(old(Pending()), [], react);
        Pending() == d.pending && delivered == d.delivered && repaints == d.repaints
    {
      ghost var p := Pending();
      var stop := write;
      ghost var rest, tail := p, [];
      ghost var goal := FlushFrom(p, [], react);
      ghost var cap := |p| + Room(|p|, bound);
      delivered, repaints := [], 0;
      while read != stop
        invariant Valid() && Pending() == rest + tail && stop < QUEUE_SIZE
        invariant Slot(read, |rest|) == stop
        invariant |rest| + |tail| + Room(|rest|, bound) <= cap < QUEUE_SIZE
        invariant Tally(goal, rest, tail, react, delivered, repaints)
        decreases |rest|
      {
        delivered, repaints, rest, tail := FlushOne(react, bound, cap, goal, delivered, repaints, rest, tail);
      }
      SlotZero(read, |rest|);
    }

    /** One iteration of the loop of `repost_messages`, with what it has delivered and repainted so far. */
    method FlushOne(react: Msg -> seq<Msg>, ghost bound: nat, ghost cap: nat, ghost goal: Drained,
                    delivered: seq<Msg>, repaints: nat, ghost rest: seq<Msg>, ghost tail: seq<Msg>)
      returns (delivered': seq<Msg>, repaints': nat, ghost rest': seq<Msg>, ghost tail': seq<Msg>)
      requires Valid() && Pending() == rest + tail && rest != []
      requires forall m :: |react(m)| <= bound
      requires |rest| + |tail| + Room(|rest|, bound) <= cap < QUEUE_SIZE
      requires Tally(goal, rest, tail, react, delivered, repaints)
      modifies this, messages
      ensures Valid() && Pending() == rest' + tail'
      ensures Slot(read, |rest'|) == Slot(old(read), |rest|)
      ensures |rest'| == |rest| - 1 && |rest'| + |tail'| + Room(|rest'|, bound) <= cap
      ensures Tally(goal, rest', tail', react, delivered', repaints')
    {
      var m;
      m, rest', tail' := DeliverNext(react, bound, rest, tail, cap);
      delivered', repaints' := delivered, repaints;
      if m.target.None? {
      } else if m.kind == WM_REFRESHSTENCIL {
        repaints' := repaints + 1;
      } else {
        delivered' := delivered + [m];
      }
      Tallied(FlushFrom(rest', tail', react), FlushFrom(rest, tail, react), m, delivered, repaints, delivered', repaints');
    }

    /**
     * One iteration of `repost_messages`: the oldest slot is taken and, unless
     * it is cleared or a stencil refresh, delivered, the procedure's posts
     * going to the back of the queue.
     */
    method DeliverNext(react: Msg -> seq<Msg>, ghost bound: nat, ghost rest: seq<Msg>, ghost tail: seq<Msg>, ghost cap: nat)
      returns (m: Msg, ghost rest': seq<Msg>, ghost tail': seq<Msg>)
      requires Valid() && Pending() == rest + tail && rest != []
      requires forall m :: |react(m)| <= bound
      requires |rest| + |tail| + Room(|rest|, bound) <= cap < QUEUE_SIZE
      modifies this, messages
      ensures Valid() && read == Slot(old(read), 1) && Pending() == rest' + tail'
      ensures Slot(read, |rest'|) == Slot(old(read), |rest|)
      ensures |rest'| == |rest| - 1 && |rest'| + |tail'| + Room(|rest'|, bound) <= cap
      ensures m == rest[0]
      ensures var d := FlushFrom(rest', tail', react);
        FlushFrom(rest, tail, react) ==
          if m.target.None? then d
          else if m.kind == WM_REFRESHSTENCIL then d.(repaints := d.repaints + 1)
          else d.(delivered := [m] + d.delivered)
    {
      m := TakeOldest(rest, tail);
      FlushStep(rest, tail, react);
      SlotStep(old(read), |rest|);
      rest', tail' := rest[1..], tail;
      if m.target.Some? && m.kind != WM_REFRESHSTENCIL {
        var posts := react(m);
        PostEach(posts, rest', tail');
        rest', tail' := PostAllDuring(rest', tail', posts).0, PostAllDuring(rest', tail', posts).1;
      }
    }

    /** Reading the oldest pending slot and advancing `read` (`queue.read++`). */
    method TakeOldest(ghost rest: seq<Msg>, ghost tail: seq<Msg>) returns (m: Msg)
      requires Valid() && Pending() == rest + tail && rest != []
      modifies this
      ensures Valid() && read == Slot(old(read), 1) && write == old(write)
      ensures m == rest[0] && Pending() == rest[1..] + tail
    {
      ghost var n := Count();
      m := messages[read];
      read := Slot(read, 1);
      AdvanceRead(messages[..], read, n, rest + tail);
      assert (rest + tail)[1..] == rest[1..] + tail;
    }

    /** The posts one procedure makes during a flush, one `post_message` each. */
    method PostEach(posts: seq<Msg>, ghost rest: seq<Msg>, ghost tail: seq<Msg>)
      requires Valid() && Pending() == rest + tail && |rest| + |tail| + |posts| < QUEUE_SIZE
      modifies this, messages
      ensures Valid() && read == old(read)
      ensures Pending() == PostAllDuring(rest, tail, posts).0 + PostAllDuring(rest, tail, posts).1
    {
      for j := 0 to |posts|
        invariant Valid() && read == old(read)
        invariant Pending() == PostAllDuring(rest, tail, posts[..j]).0 + PostAllDuring(rest, tail, posts[..j]).1
      {
        ghost var r := PostAllDuring(rest, tail, posts[..j]);
        Post(posts[j]);
        CoalesceAppend(r.0, r.1, posts[j].target, posts[j].kind);
        assert posts[..j + 1][..j] == posts[..j];
      }
      assert posts[..|posts|] == posts;
    }

    /** `remove_from_global_queue` */
    method Remove(h: Handle)
      requires Valid()
      modifies messages
      ensures Valid() && Pending() == Purge(old(Pending()), h)
      ensures Untouched(old(messages[..]), messages[..], read, Count())
    {
      ghost var p := Pending();
      ghost var orig := messages[..];
      var n := Count();
      var i := 0;
      while i < n
        invariant Valid() && 0 <= i <= n && n == |p| == Count()
        invariant RingWindow(messages[..], read, n) == Purge(p[..i], h) + p[i..]
        invariant Untouched(orig, messages[..], read, n)
      {
        PurgeAt(i, h, p, orig);
        i := i + 1;
      }
      assert p[..n] == p;
    }
  }

  /** One iteration of the duplicate-clearing loop of `post_message`. */
  lemma CoalesceStep(before: seq<Msg>, after: seq<Msg>, read: nat, n: nat, i: nat, p: seq<Msg>, t: Option<Handle>, k: int)
    requires |before| == QUEUE_SIZE && read < QUEUE_SIZE && i < n < QUEUE_SIZE && |p| == n
    requires RingWindow(before, read, n) == Coalesce(p[..i], t, k) + p[i..]
    requires var r := Slot(read, i);
      after == before[r := if before[r].target == t && before[r].kind == k then before[r].(target := None) else before[r]]
    ensures RingWindow(after, read, n) == Coalesce(p[..i + 1], t, k) + p[i + 1..]
  {
    var r := Slot(read, i);
    var lhs, rhs := RingWindow(after, read, n), Coalesce(p[..i + 1], t, k) + p[i + 1..];
    forall j | 0 <= j < n
      ensures lhs[j] == rhs[j]
    {
      assert RingWindow(before, read, n)[j] == (Coalesce(p[..i], t, k) + p[i..])[j];
      if j != i {
        assert Slot(read, j) != r;
      }
    }
  }

  /** One iteration of the loop of `remove_from_global_queue`. */
  lemma PurgeStep(before: seq<Msg>, after: seq<Msg>, read: nat, n: nat, i: nat, p: seq<Msg>, h: Handle)
    requires |before| == QUEUE_SIZE && read < QUEUE_SIZE && i < n < QUEUE_SIZE && |p| == n
    requires RingWindow(before, read, n) == Purge(p[..i], h) + p[i..]
    requires var r := Slot(read, i);
      after == before[r := if before[r].target == Some(h) then before[r].(target := None) else before[r]]
    ensures RingWindow(after, read, n) == Purge(p[..i + 1], h) + p[i + 1..]
  {
    var r := Slot(read, i);
    var lhs, rhs := RingWindow(after, read, n), Purge(p[..i + 1], h) + p[i + 1..];
    forall j | 0 <= j < n
      ensures lhs[j] == rhs[j]
    {
      assert RingWindow(before, read, n)[j] == (Purge(p[..i], h) + p[i..])[j];
      if j != i {
        assert Slot(read, j) != r;
      }
    }
  }

  /** Writing the new message at `write` and advancing it. */
  lemma PostStep(before: seq<Msg>, after: seq<Msg>, read: nat, n: nat, p: seq<Msg>, m: Msg)
    requires |before| == QUEUE_SIZE && read < QUEUE_SIZE && n < QUEUE_SIZE && |p| == n
    requires RingWindow(before, read, n) == Coalesce(p, m.target, m.kind)
    requires after == before[Slot(read, n) := m]
    ensures RingWindow(after, read, Slot(Slot(read, n), 1) - read + (if Slot(Slot(read, n), 1) < read then QUEUE_SIZE else 0)) == AfterPost(p, m)
  {
    if n < QUEUE_SIZE - 1 {
      var lhs := RingWindow(after, read, n + 1);
      forall j | 0 <= j < n + 1
        ensures lhs[j] == (Coalesce(p, m.target, m.kind) + [m])[j]
      {
        if j < n {
          assert Slot(read, j) != Slot(read, n);
          assert RingWindow(before, read, n)[j] == Coalesce(p, m.target, m.kind)[j];
        }
      }
    }
  }

  /** Advancing `read` by one drops the oldest pending slot. */
  lemma AdvanceRead(slots: seq<Msg>, read': nat, n: nat, p: seq<Msg>)
    requires |slots| == QUEUE_SIZE && read' < QUEUE_SIZE && 0 < n < QUEUE_SIZE
    requires var read := if read' == 0 then QUEUE_SIZE - 1 else read' - 1;
      RingWindow(slots, read, n) == p
    ensures RingWindow(slots, read', n - 1) == p[1..]
  {
    var read := if read' == 0 then QUEUE_SIZE - 1 else read' - 1;
    var w := RingWindow(slots, read', n - 1);
    forall k | 0 <= k < n - 1
      ensures w[k] == p[1..][k]
    {
      assert Slot(read', k) == Slot(read, k + 1);
    }
  }
}
