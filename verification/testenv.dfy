/**
 * tests/test_env.c: the event log the tests read. A hook on the common
 * message kinds records each distinct (window, message, wparam) once, in
 * the order first seen, in a table of 100 entries; repeats only raise
 * that entry's call count. Window and lparam pointers are opaque numbers
 * here (0 for NULL).
 */
module TestEnv {
  import opened Wrappers
  import opened Words
  import opened Messages

  const MAX_TRACKED_EVENTS: int := 100

  /** `test_event_t` */
  datatype Event = Event(window: nat, msg: U32, wparam: U32, lparam: nat, callCount: int)

  /** The all-zero entry `memset` leaves. */
  const BLANK: Event := Event(0, 0, 0, 0, 0)

  /** The message kinds `test_env_enable_tracking` hooks, in registration order. */
  const TRACKED_KINDS: seq<int> := [WM_CREATE, WM_DESTROY, WM_PAINT, WM_COMMAND, WM_LBUTTONDOWN,
    WM_LBUTTONUP, WM_KEYDOWN, WM_KEYUP, WM_MOUSEMOVE, WM_SETFOCUS, WM_KILLFOCUS]

  predicate SameCall(e: Event, window: nat, msg: U32, wparam: U32) {
    e.window == window && e.msg == msg && e.wparam == wparam
  }

  /** No two entries record the same (window, message, wparam). */
  predicate Distinct(es: seq<Event>) {
    forall i, j | 0 <= i < j < |es| :: !SameCall(es[j], es[i].window, es[i].msg, es[i].wparam)
  }

  /** The first entry recording (window, msg, wparam), or -1. */
  function FindCall(es: seq<Event>, window: nat, msg: U32, wparam: U32): (k: int)
    ensures -1 <= k < |es|
    ensures k == -1 <==> forall i | 0 <= i < |es| :: !SameCall(es[i], window, msg, wparam)
    ensures k != -1 ==>
      SameCall(es[k], window, msg, wparam) && forall i | 0 <= i < k :: !SameCall(es[i], window, msg, wparam)
  {
    if es == [] then -1
    else
      var k := FindCall(es[..|es| - 1], window, msg, wparam);
      if k != -1 then k
      else if SameCall(es[|es| - 1], window, msg, wparam) then |es| - 1
      else -1
  }

  /** The log after `test_env_hook_callback` sees (window, msg, wparam, lparam). */
  function Recorded(es: seq<Event>, tracking: bool, window: nat, msg: U32, wparam: U32, lparam: nat): seq<Event> {
    if !tracking || |es| >= MAX_TRACKED_EVENTS then es
    else
      var k := FindCall(es, window, msg, wparam);
      if k != -1 then es[k := es[k].(callCount := es[k].callCount + 1)]
      else es + [Event(window, msg, wparam, lparam, 1)]
  }

  /** `test_env_find_event`: the first entry with that message kind, or -1. */
  function FindMsg(es: seq<Event>, msg: U32): (k: int)
    ensures -1 <= k < |es|
    ensures k == -1 <==> forall i | 0 <= i < |es| :: es[i].msg != msg
    ensures k != -1 ==> es[k].msg == msg && forall i | 0 <= i < k :: es[i].msg != msg
  {
    if es == [] then -1
    else
      var k := FindMsg(es[..|es| - 1], msg);
      if k != -1 then k
      else if es[|es| - 1].msg == msg then |es| - 1
      else -1
  }

  /** `test_env_count_message`: how many entries have that message kind. */
  function CountMsg(es: seq<Event>, msg: U32): (n: nat)
    ensures n <= |es|
  {
    if es == [] then 0
    else CountMsg(es[..|es| - 1], msg) + if es[|es| - 1].msg == msg then 1 else 0
  }

  /** A message was sent exactly when it is found, exactly when it is counted at least once. */
  lemma {:induction false} FoundIffCounted(es: seq<Event>, msg: U32)
    ensures FindMsg(es, msg) != -1 <==> CountMsg(es, msg) > 0
    decreases |es|
  {
    if es != [] {
      FoundIffCounted(es[..|es| - 1], msg);
    }
  }

  /** Hooking keeps entries distinct, never shrinks the log and never grows it past 100. */
  lemma RecordedKeeps(es: seq<Event>, tracking: bool, window: nat, msg: U32, wparam: U32, lparam: nat)
    requires Distinct(es) && |es| <= MAX_TRACKED_EVENTS
    ensures var r := Recorded(es, tracking, window, msg, wparam, lparam);
      Distinct(r) && |es| <= |r| <= MAX_TRACKED_EVENTS && |r| <= |es| + 1
  {
  }

  /** A repeated call is counted once by CountMsg: the entry's call count rises instead. */
  lemma {:induction false} RepeatCountedOnce(es: seq<Event>, window: nat, msg: U32, wparam: U32, lparam: nat, lparam': nat)
    requires |es| + 1 < MAX_TRACKED_EVENTS && FindCall(es, window, msg, wparam) == -1
    ensures var once := Recorded(es, true, window, msg, wparam, lparam);
      var twice := Recorded(once, true, window, msg, wparam, lparam');
      && CountMsg(twice, msg) == CountMsg(es, msg) + 1
      && |twice| == |es| + 1
      && twice[|es|] == Event(window, msg, wparam, lparam, 2)
  {
    var once := es + [Event(window, msg, wparam, lparam, 1)];
    assert once[..|es|] == es;
    assert FindCall(once, window, msg, wparam) == |es|;
    var twice := once[|es| := Event(window, msg, wparam, lparam, 2)];
    assert twice[..|es|] == es;
  }

  /** The same message kind with another wparam is a separate entry and is counted separately. */
  lemma {:induction false} OtherWparamCountedApart(es: seq<Event>, window: nat, msg: U32, w1: U32, w2: U32, lparam: nat)
    requires |es| + 1 < MAX_TRACKED_EVENTS && w1 != w2
    requires FindCall(es, window, msg, w1) == -1 && FindCall(es, window, msg, w2) == -1
    ensures var once := Recorded(es, true, window, msg, w1, lparam);
      CountMsg(Recorded(once, true, window, msg, w2, lparam), msg) == CountMsg(es, msg) + 2
  {
    var once := es + [Event(window, msg, w1, lparam, 1)];
    assert once[..|es|] == es;
    assert FindCall(once, window, msg, w2) == -1;
    var twice := once + [Event(window, msg, w2, lparam, 1)];
    assert twice[..|once|] == once;
  }

  /** `test_env_t`: the table, the number of entries in use and whether tracking is on. */
  class Env {
    const events: array<Event>
    var count: int
    var tracking: bool

    ghost predicate Valid()
      reads this, events
    {
      events.Length == MAX_TRACKED_EVENTS && 0 <= count <= MAX_TRACKED_EVENTS && Distinct(events[..count])
    }

    /** The entries in use. */
    ghost function Log(): seq<Event>
      reads this, events
      requires Valid()
    {
      events[..count]
    }

    /** `test_env_init`: everything zero, tracking off. */
    constructor ()
      ensures Valid() && fresh(events) && Log() == [] && !tracking
      ensures events[..] == seq(MAX_TRACKED_EVENTS, _ => BLANK)
    {
      events := new Event[MAX_TRACKED_EVENTS](_ => BLANK);
      count := 0;
      tracking := false;
    }

    /** `test_env_enable_tracking`: turning it on registers the hook on the tracked kinds, again each time. */
    method EnableTracking(enable: bool) returns (hooks: seq<int>)
      modifies this`tracking
      ensures tracking == enable
      ensures hooks == if enable then TRACKED_KINDS else []
    {
      tracking := enable;
      hooks := if enable then TRACKED_KINDS else [];
    }

    /** `test_env_clear_events`: no entries, and the table zeroed. */
    method ClearEvents()
      requires Valid()
      modifies this`count, events
      ensures Valid() && Log() == []
      ensures events[..] == seq(MAX_TRACKED_EVENTS, _ => BLANK)
    {
      count := 0;
      forall i | 0 <= i < events.Length {
        events[i] := BLANK;
      }
    }

    /** `test_env_shutdown` */
    method Shutdown()
      requires Valid()
      modifies this, events
      ensures Valid() && Log() == [] && !tracking
    {
      ClearEvents();
      tracking := false;
    }

    /** `test_env_get_event_count` */
    method EventCount() returns (n: int)
      requires Valid()
      ensures n == |Log()|
    {
      return count;
    }

    /** `test_env_get_event`: the entry at index, or none outside [0, count). */
    method GetEvent(index: int) returns (e: Option<Event>)
      requires Valid()
      ensures e.Some? <==> 0 <= index < |Log()|
      ensures e.Some? ==> e.value == Log()[index]
    {
      if index < 0 || index >= count {
        return None;
      }
      return Some(events[index]);
    }

    /** `test_env_find_event`: the index of the first entry with that kind, or -1 for NULL. */
    method FindEvent(msg: U32) returns (k: int)
      requires Valid()
      ensures k == FindMsg(Log(), msg)
    {
      var i := 0;
      while i < count
        invariant 0 <= i <= count
        invariant FindMsg(events[..i], msg) == -1
      {
        assert events[..i + 1][..i] == events[..i];
        if events[i].msg == msg {
          return i;
        }
        i := i + 1;
      }
      return -1;
    }

    /** `test_env_was_message_sent` */
    method WasMessageSent(msg: U32) returns (b: bool)
      requires Valid()
      ensures b <==> CountMsg(Log(), msg) > 0
    {
      var k := FindEvent(msg);
      FoundIffCounted(Log(), msg);
      return k != -1;
    }

    /** `test_env_count_message` */
    method CountMessage(msg: U32) returns (n: int)
      requires Valid()
      ensures n == CountMsg(Log(), msg)
    {
      n := 0;
      var i := 0;
      while i < count
        invariant 0 <= i <= count
        invariant n == CountMsg(events[..i], msg)
      {
        assert events[..i + 1][..i] == events[..i];
        if events[i].msg == msg {
          n := n + 1;
        }
        i := i + 1;
      }
      assert events[..count] == events[..i];
    }

    /** `test_env_hook_callback` */
    method Hook(window: nat, msg: U32, wparam: U32, lparam: nat)
      requires Valid()
      modifies this`count, events
      ensures Valid()
      ensures Log() == Recorded(old(Log()), tracking, window, msg, wparam, lparam)
      ensures events[count..] == old(events[..])[count..]
    {
      if !tracking || count >= MAX_TRACKED_EVENTS {
        return;
      }
      var k := FindSame(window, msg, wparam);
      if k != -1 {
        events[k] := events[k].(callCount := events[k].callCount + 1);
        assert events[..count] == old(events[..count])[k := events[k]];
        return;
      }
      events[count] := Event(window, msg, wparam, lparam, 1);
      count := count + 1;
      assert events[..count] == old(events[..count]) + [Event(window, msg, wparam, lparam, 1)];
    }

    /** The duplicate search of the hook. */
    method FindSame(window: nat, msg: U32, wparam: U32) returns (k: int)
      requires Valid()
      ensures k == FindCall(Log(), window, msg, wparam)
    {
      var i := 0;
      while i < count
        invariant 0 <= i <= count
        invariant FindCall(events[..i], window, msg, wparam) == -1
      {
        assert events[..i + 1][..i] == events[..i];
        if events[i].window == window && events[i].msg == msg && events[i].wparam == wparam {
          return i;
        }
        i := i + 1;
      }
      return -1;
    }
  }
}
