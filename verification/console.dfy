/**
 * commctl/console.c: the on-screen message log. `conprintf` writes into a
 * ring of 32 slots; drawing walks back from the newest slot and shows at
 * most 10 messages younger than 5 seconds. Time is a parameter (the tick
 * count, an unsigned 32-bit number of milliseconds); formatting, the
 * standard-output echo and the fading alpha are outside this model.
 */
module Console {
  import opened Words
  import opened Messages

  const MAX_CONSOLE_MESSAGES: int := 32
  const MESSAGE_DISPLAY_TIME: int := 5000
  const MAX_MESSAGE_LENGTH: int := 256
  const MAX_CONSOLE_LINES: int := 10

  /** `console_message_t` */
  datatype Message = Message(text: string, timestamp: U32, active: bool)

  /** vsnprintf into 256 bytes: at most 255 characters and the NUL. */
  function Clipped(s: string): (r: string)
    ensures |r| < MAX_MESSAGE_LENGTH && r <= s
    ensures |s| < MAX_MESSAGE_LENGTH ==> r == s
  {
    if |s| < MAX_MESSAGE_LENGTH then s else s[..MAX_MESSAGE_LENGTH - 1]
  }

  /** The slot of the i-th newest message when the newest is in slot `last`. */
  function Slot(last: int, i: int): (j: int)
    ensures 0 <= j < MAX_CONSOLE_MESSAGES
  {
    (last - i + MAX_CONSOLE_MESSAGES) % MAX_CONSOLE_MESSAGES
  }

  /** The slot `conprintf` writes after `last`. */
  function Next(last: int): (j: int)
    requires -1 <= last < MAX_CONSOLE_MESSAGES
    ensures 0 <= j < MAX_CONSOLE_MESSAGES
  {
    (last + 1) % MAX_CONSOLE_MESSAGES
  }

  /** After a write, what was the i-th newest message is the (i+1)-th. */
  lemma SlotAfterNext(last: int, i: int)
    requires -1 <= last < MAX_CONSOLE_MESSAGES && 0 <= i < MAX_CONSOLE_MESSAGES - 1
    ensures Slot(Next(last), 0) == Next(last)
    ensures Slot(Next(last), i + 1) == Slot(last, i)
    ensures Slot(Next(last), i + 1) != Next(last)
  {
    if last == MAX_CONSOLE_MESSAGES - 1 {
      assert Next(last) == 0;
    } else {
      assert Next(last) == last + 1;
    }
  }

  /** The walk back from the newest slot visits 32 different slots. */
  lemma SlotsDistinct(last: int, i: int, k: int)
    requires 0 <= i < k < MAX_CONSOLE_MESSAGES
    ensures Slot(last, i) != Slot(last, k)
  {
    var a := last - i + MAX_CONSOLE_MESSAGES;
    var b := last - k + MAX_CONSOLE_MESSAGES;
    assert a == b + (k - i);
  }

  /** The age of a message: the tick difference in unsigned 32-bit arithmetic. */
  function Age(now: U32, stamp: U32): (a: U32)
    ensures stamp <= now ==> a == now - stamp
  {
    (now - stamp) % TwoTo32
  }

  predicate Fresh(m: Message, now: U32) {
    Age(now, m.timestamp) < MESSAGE_DISPLAY_TIME
  }

  /** The slots drawn among the first n visited, newest first. */
  function Picked(ms: seq<Message>, last: int, now: U32, n: nat): (r: seq<int>)
    requires |ms| == MAX_CONSOLE_MESSAGES
    ensures |r| <= n
    ensures forall k | 0 <= k < |r| :: 0 <= r[k] < MAX_CONSOLE_MESSAGES
  {
    if n == 0 then []
    else
      var p := Picked(ms, last, now, n - 1);
      if Fresh(ms[Slot(last, n - 1)], now) then p + [Slot(last, n - 1)] else p
  }

  /** Only messages younger than 5 seconds are drawn. */
  lemma {:induction false} PickedFresh(ms: seq<Message>, last: int, now: U32, n: nat)
    requires |ms| == MAX_CONSOLE_MESSAGES
    ensures forall k | 0 <= k < |Picked(ms, last, now, n)| :: Fresh(ms[Picked(ms, last, now, n)[k]], now)
  {
    if n > 0 {
      PickedFresh(ms, last, now, n - 1);
    }
  }

  /** The number of slots the walk visits: it stops after `count` slots or 10 drawn lines. */
  function Reach(ms: seq<Message>, last: int, count: int, now: U32, i: nat): (n: nat)
    requires |ms| == MAX_CONSOLE_MESSAGES
    ensures i <= n
    decreases count - i
  {
    if i >= count || |Picked(ms, last, now, i)| >= MAX_CONSOLE_LINES then i
    else Reach(ms, last, count, now, i + 1)
  }

  /** Started at slot s, the walk passes slot i (s <= i <= its end) exactly when it is not yet stopped there. */
  lemma {:induction false} Continues(ms: seq<Message>, last: int, count: int, now: U32, s: nat, i: nat)
    requires |ms| == MAX_CONSOLE_MESSAGES && s <= i <= Reach(ms, last, count, now, s)
    ensures i < Reach(ms, last, count, now, s) <==> i < count && |Picked(ms, last, now, i)| < MAX_CONSOLE_LINES
    decreases count - s
  {
    if s < count && |Picked(ms, last, now, s)| < MAX_CONSOLE_LINES && s < i {
      Continues(ms, last, count, now, s + 1, i);
    }
  }

  /** The array after the walk: every visited message that has aged out is marked inactive. */
  function Marked(ms: seq<Message>, last: int, now: U32, n: nat): (r: seq<Message>)
    requires |ms| == MAX_CONSOLE_MESSAGES
    ensures |r| == MAX_CONSOLE_MESSAGES
    ensures forall j | 0 <= j < MAX_CONSOLE_MESSAGES ::
      r[j].text == ms[j].text && r[j].timestamp == ms[j].timestamp
  {
    if n == 0 then ms
    else
      var m := Marked(ms, last, now, n - 1);
      var j := Slot(last, n - 1);
      if Fresh(ms[j], now) then m else m[j := m[j].(active := false)]
  }

  function Texts(ms: seq<Message>, slots: seq<int>): (r: seq<string>)
    requires forall k | 0 <= k < |slots| :: 0 <= slots[k] < |ms|
    ensures |r| == |slots| && forall k | 0 <= k < |slots| :: r[k] == ms[slots[k]].text
  {
    if slots == [] then [] else Texts(ms, slots[..|slots| - 1]) + [ms[slots[|slots| - 1]].text]
  }

  /** How one more visited slot extends the drawn lines and the marks. */
  lemma VisitStep(ms: seq<Message>, last: int, now: U32, i: nat)
    requires |ms| == MAX_CONSOLE_MESSAGES
    ensures var j := Slot(last, i);
      var m := Marked(ms, last, now, i);
      var p := Picked(ms, last, now, i);
      && j == (last - i + MAX_CONSOLE_MESSAGES) % MAX_CONSOLE_MESSAGES
      && m[j].timestamp == ms[j].timestamp && m[j].text == ms[j].text
      && (Fresh(ms[j], now) ==>
            Picked(ms, last, now, i + 1) == p + [j] && Marked(ms, last, now, i + 1) == m
            && Texts(ms, p + [j]) == Texts(ms, p) + [ms[j].text])
      && (!Fresh(ms[j], now) ==>
            Picked(ms, last, now, i + 1) == p && Marked(ms, last, now, i + 1) == m[j := m[j].(active := false)])
  {
    var p := Picked(ms, last, now, i);
    var j := Slot(last, i);
    if Fresh(ms[j], now) {
      assert (p + [j])[..|p|] == p;
    }
  }

  /**
   * The walk stops after `count` slots, or earlier exactly when 10 lines
   * are drawn, and never draws more than 10.
   */
  lemma {:induction false} Stops(ms: seq<Message>, last: int, count: int, now: U32, i: nat)
    requires |ms| == MAX_CONSOLE_MESSAGES && i <= count && |Picked(ms, last, now, i)| <= MAX_CONSOLE_LINES
    ensures var n := Reach(ms, last, count, now, i);
      && n <= count && |Picked(ms, last, now, n)| <= MAX_CONSOLE_LINES
      && (n == count || |Picked(ms, last, now, n)| == MAX_CONSOLE_LINES)
    decreases count - i
  {
    if !(i >= count || |Picked(ms, last, now, i)| >= MAX_CONSOLE_LINES) {
      assert |Picked(ms, last, now, i + 1)| <= |Picked(ms, last, now, i)| + 1;
      Stops(ms, last, count, now, i + 1);
    }
  }

  /** Right after a print, the newest message is the first line drawn. */
  lemma NewestFirst(ms: seq<Message>, last: int, count: int, now: U32)
    requires |ms| == MAX_CONSOLE_MESSAGES && 0 <= last < MAX_CONSOLE_MESSAGES && count >= 1
    requires ms[last].timestamp == now
    ensures Reach(ms, last, count, now, 0) >= 1
    ensures var p := Picked(ms, last, now, Reach(ms, last, count, now, 0));
      |p| >= 1 && p[0] == last
  {
    assert Slot(last, 0) == last;
    assert Picked(ms, last, now, 0) == [];
    assert Picked(ms, last, now, 1) == [last];
    PickedGrows(ms, last, now, 1, Reach(ms, last, count, now, 0));
  }

  /** What is picked among the first m visits stays picked among the first n >= m. */
  lemma {:induction false} PickedGrows(ms: seq<Message>, last: int, now: U32, m: nat, n: nat)
    requires |ms| == MAX_CONSOLE_MESSAGES && m <= n
    ensures Picked(ms, last, now, m) <= Picked(ms, last, now, n)
    decreases n - m
  {
    if m < n {
      PickedGrows(ms, last, now, m + 1, n);
    }
  }

  /** The slots hold the newest `count` messages of the log: the i-th newest in Slot(last, i). */
  ghost predicate Keeps(ms: seq<Message>, last: int, count: int, log: seq<Message>) {
    && |ms| == MAX_CONSOLE_MESSAGES && 0 <= count <= |log|
    && forall i | 0 <= i < count ::
      ms[Slot(last, i)].text == log[|log| - 1 - i].text &&
      ms[Slot(last, i)].timestamp == log[|log| - 1 - i].timestamp
  }

  /** Marking messages inactive keeps what the ring holds. */
  lemma MarkedKeeps(ms: seq<Message>, last: int, count: int, log: seq<Message>, now: U32, n: nat)
    requires Keeps(ms, last, count, log)
    ensures Keeps(Marked(ms, last, now, n), last, count, log)
  {
    var r := Marked(ms, last, now, n);
    forall i | 0 <= i < count
      ensures r[Slot(last, i)].text == log[|log| - 1 - i].text
      ensures r[Slot(last, i)].timestamp == log[|log| - 1 - i].timestamp
    {
      var j := Slot(last, i);
      assert r[j].text == ms[j].text && r[j].timestamp == ms[j].timestamp;
    }
  }

  class Ring {
    const messages: array<Message>
    var count: int
    var last: int
    var shown: bool
    /** Every message printed since `init_console`, oldest first. */
    ghost var log: seq<Message>

    /**
     * The ring holds the newest `count` messages of the log, at most 32:
     * the i-th newest in slot (last - i + 32) % 32.
     */
    ghost predicate Valid()
      reads this, messages
    {
      && messages.Length == MAX_CONSOLE_MESSAGES
      && -1 <= last < MAX_CONSOLE_MESSAGES
      && count == Min(|log|, MAX_CONSOLE_MESSAGES)
      && (|log| == 0 <==> last == -1)
      && Keeps(messages[..], last, count, log)
    }

    /** `init_console`: no messages, no last slot, shown. */
    constructor ()
      ensures Valid() && fresh(messages)
      ensures count == 0 && last == -1 && shown && log == []
    {
      messages := new Message[MAX_CONSOLE_MESSAGES](_ => Message("", 0, false));
      count := 0;
      last := -1;
      shown := true;
      log := [];
    }

    /** `conprintf`: the next slot gets the text, clipped to 255 characters, and the time. */
    method Print(text: string, now: U32)
      requires Valid()
      modifies this, messages
      ensures Valid() && shown == old(shown)
      ensures last == Next(old(last))
      ensures count == Min(old(count) + 1, MAX_CONSOLE_MESSAGES)
      ensures messages[..] == old(messages[..])[last := Message(Clipped(text), now, true)]
      ensures log == old(log) + [Message(Clipped(text), now, true)]
    {
      var index := Next(last);
      ghost var l0 := last;
      last := index;
      if count < MAX_CONSOLE_MESSAGES {
        count := count + 1;
      }
      messages[index] := Message(Clipped(text), now, true);
      log := log + [Message(Clipped(text), now, true)];
      forall i | 0 <= i < count
        ensures messages[..][Slot(last, i)].text == log[|log| - 1 - i].text
        ensures messages[..][Slot(last, i)].timestamp == log[|log| - 1 - i].timestamp
      {
        if i == 0 {
          SlotAfterNext(l0, 0);
        } else {
          SlotAfterNext(l0, i - 1);
        }
      }
    }

    /** `toggle_console` */
    method Toggle()
      modifies this
      ensures shown == !old(shown) && count == old(count) && last == old(last) && log == old(log)
    {
      shown := !shown;
    }

    /**
     * `draw_console`: nothing while hidden; otherwise the texts drawn, one
     * line each from the top, newest first, and aged-out messages marked.
     */
    method Draw(now: U32) returns (lines: seq<string>)
      requires Valid()
      modifies messages
      ensures Valid()
      ensures !shown ==> lines == [] && messages[..] == old(messages[..])
      ensures shown ==> var n := Reach(old(messages[..]), last, count, now, 0);
        && lines == Texts(old(messages[..]), Picked(old(messages[..]), last, now, n))
        && messages[..] == Marked(old(messages[..]), last, now, n)
    {
      if !shown {
        return [];
      }
      ghost var ms := messages[..];
      lines := Walk(messages, last, count, now);
      MarkedKeeps(ms, last, count, log, now, Reach(ms, last, count, now, 0));
    }

    /** The loop of `draw_console`, newest slot first. */
    static method Walk(a: array<Message>, last: int, count: int, now: U32) returns (lines: seq<string>)
      requires a.Length == MAX_CONSOLE_MESSAGES && 0 <= count <= MAX_CONSOLE_MESSAGES
      modifies a
      ensures var n := Reach(old(a[..]), last, count, now, 0);
        && lines == Texts(old(a[..]), Picked(old(a[..]), last, now, n))
        && a[..] == Marked(old(a[..]), last, now, n)
    {
      ghost var ms := a[..];
      ghost var n := Reach(ms, last, count, now, 0);
      lines := [];
      var i := 0;
      while i < count && |lines| < MAX_CONSOLE_LINES
        invariant 0 <= i <= n
        invariant lines == Texts(ms, Picked(ms, last, now, i))
        invariant a[..] == Marked(ms, last, now, i)
      {
        Continues(ms, last, count, now, 0, i);
        lines := Visit(a, last, now, i, ms, lines);
        i := i + 1;
      }
      Continues(ms, last, count, now, 0, i);
      assert i == n && ms == old(a[..]);
    }

    /** One step of the walk: the i-th newest slot is drawn, or marked inactive if it aged out. */
    static method Visit(a: array<Message>, last: int, now: U32, i: nat, ghost ms: seq<Message>, lines: seq<string>)
      returns (lines': seq<string>)
      requires a.Length == MAX_CONSOLE_MESSAGES && |ms| == MAX_CONSOLE_MESSAGES
      requires a[..] == Marked(ms, last, now, i) && lines == Texts(ms, Picked(ms, last, now, i))
      modifies a
      ensures a[..] == Marked(ms, last, now, i + 1)
      ensures lines' == Texts(ms, Picked(ms, last, now, i + 1))
    {
      var j := (last - i + MAX_CONSOLE_MESSAGES) % MAX_CONSOLE_MESSAGES;
      VisitStep(ms, last, now, i);
      var m := a[j];
      if Age(now, m.timestamp) < MESSAGE_DISPLAY_TIME {
        lines' := lines + [m.text];
      } else {
        lines' := lines;
        a[j] := m.(active := false);
      }
    }
  }

  /** `win_console`: WM_PAINT draws the console; every message returns false. */
  method ConsoleProc(ring: Ring, msg: int, now: U32) returns (r: bool, lines: seq<string>)
    requires ring.Valid()
    modifies ring.messages
    ensures ring.Valid() && !r
    ensures msg != WM_PAINT ==> lines == [] && ring.messages[..] == old(ring.messages[..])
    ensures msg == WM_PAINT && ring.shown ==>
      lines == Texts(old(ring.messages[..]), Picked(old(ring.messages[..]), ring.last, now, Reach(old(ring.messages[..]), ring.last, ring.count, now, 0)))
  {
    lines := [];
    if msg == WM_PAINT {
      lines := ring.Draw(now);
    }
    return false, lines;
  }
}
