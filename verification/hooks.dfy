/**
 * The window hooks of user/message.c: a list, newest first, of callbacks
 * that `send_message` runs for one message kind before the procedure.
 */
module Hooks {
  import opened Wrappers
  import opened User

  /** The hook callbacks the toolkit registers, plus any application callback. */
  datatype HookFunc = TrayCreated | TrayDestroyed | TestEnvCallback | AppHook(tag: nat)

  /** `winhook_t` without its `next` link; `userdata` is the window the hook belongs to, if any. */
  datatype Hook = Hook(func: HookFunc, msg: int, userdata: Option<Handle>)

  /** The hooks not owned by win, in their original order. */
  function Without(hs: seq<Hook>, win: Handle): (r: seq<Hook>)
    ensures |r| <= |hs|
    ensures forall h | h in r :: h in hs && h.userdata != Some(win)
    ensures forall h | h in hs && h.userdata != Some(win) :: h in r
  {
    if hs == [] then []
    else if hs[0].userdata == Some(win) then Without(hs[1..], win)
    else [hs[0]] + Without(hs[1..], win)
  }

  /** The hooks `send_message` calls for a message kind, in the order it calls them. */
  function Matching(hs: seq<Hook>, msg: int): (r: seq<Hook>)
    ensures |r| <= |hs|
    ensures forall h | h in r :: h in hs && h.msg == msg
    ensures forall h | h in hs && h.msg == msg :: h in r
  {
    if hs == [] then []
    else if hs[0].msg == msg then [hs[0]] + Matching(hs[1..], msg)
    else Matching(hs[1..], msg)
  }

  lemma {:induction false} WithoutAppend(a: seq<Hook>, b: seq<Hook>, win: Handle)
    ensures Without(a + b, win) == Without(a, win) + Without(b, win)
  {
    if a == [] {
      assert a + b == b;
    } else {
      assert (a + b)[0] == a[0];
      assert (a + b)[1..] == a[1..] + b;
      WithoutAppend(a[1..], b, win);
    }
  }

  /** Dropping one owned hook does not change what remains once all owned hooks are gone. */
  lemma {:induction false} WithoutSkip(hs: seq<Hook>, i: nat, win: Handle)
    requires i < |hs| && hs[i].userdata == Some(win)
    ensures Without(hs[..i] + hs[i + 1..], win) == Without(hs, win)
  {
    assert hs == hs[..i] + ([hs[i]] + hs[i + 1..]);
    WithoutAppend(hs[..i], [hs[i]] + hs[i + 1..], win);
    WithoutAppend(hs[..i], hs[i + 1..], win);
  }

  /** A list with no owned hook is its own filtering. */
  lemma {:induction false} WithoutNone(hs: seq<Hook>, win: Handle)
    requires forall j | 0 <= j < |hs| :: hs[j].userdata != Some(win)
    ensures Without(hs, win) == hs
  {
    if hs != [] {
      WithoutNone(hs[1..], win);
    }
  }

  /** Registering and removing a window's hooks leaves the other hooks as they were. */
  lemma RegisterThenRemove(hs: seq<Hook>, h: Hook, win: Handle)
    requires h.userdata == Some(win)
    ensures Without([h] + hs, win) == Without(hs, win)
  {
    assert ([h] + hs)[1..] == hs;
  }

  /** A hook outlives a set of destroyed windows: it has no owner, or its owner is still live. */
  predicate Kept(k: Hook, live: set<Handle>) {
    k.userdata.None? || k.userdata.value in live
  }

  /** The hooks left once every window outside `live` has removed its own, in their original order. */
  function Surviving(hs: seq<Hook>, live: set<Handle>): (r: seq<Hook>)
    ensures |r| <= |hs|
    ensures forall k | k in r :: k in hs && Kept(k, live)
    ensures forall k | k in hs && Kept(k, live) :: k in r
  {
    if hs == [] then []
    else if Kept(hs[0], live) then [hs[0]] + Surviving(hs[1..], live)
    else Surviving(hs[1..], live)
  }

  /** When every owner is live nothing is removed. */
  lemma {:induction false} SurvivingAll(hs: seq<Hook>, live: set<Handle>)
    requires forall k | k in hs :: Kept(k, live)
    ensures Surviving(hs, live) == hs
  {
    if hs != [] {
      assert forall k | k in hs[1..] :: k in hs;
      SurvivingAll(hs[1..], live);
    }
  }

  /** Removing the hooks of two nested sets of windows is removing those of the larger one. */
  lemma {:induction false} SurvivingTwice(hs: seq<Hook>, live: set<Handle>, live': set<Handle>)
    requires live' <= live
    ensures Surviving(Surviving(hs, live), live') == Surviving(hs, live')
  {
    if hs != [] {
      SurvivingTwice(hs[1..], live, live');
      if Kept(hs[0], live) {
        assert ([hs[0]] + Surviving(hs[1..], live))[1..] == Surviving(hs[1..], live);
      }
    }
  }

  /** Removing one window's hooks, then those of the windows outside `live`, is one removal. */
  lemma {:induction false} SurvivingWithout(hs: seq<Hook>, win: Handle, live: set<Handle>)
    ensures Surviving(Without(hs, win), live) == Surviving(hs, live - {win})
  {
    if hs != [] {
      SurvivingWithout(hs[1..], win, live);
      if hs[0].userdata != Some(win) {
        assert ([hs[0]] + Without(hs[1..], win))[1..] == Without(hs[1..], win);
      }
    }
  }

  /** `g_hooks` */
  class HookList {
    var hooks: seq<Hook>

    constructor()
      ensures hooks == []
    {
      hooks := [];
    }

    /** `register_window_hook`: the new hook goes in front. */
    method Register(msg: int, func: HookFunc, userdata: Option<Handle>)
      modifies this
      ensures hooks == [Hook(func, msg, userdata)] + old(hooks)
    {
      hooks := [Hook(func, msg, userdata)] + hooks;
    }

    /**
     * `remove_from_global_hooks` as evidently intended: the run of owned
     * hooks at the head is dropped, then the rest of the list is walked
     * with `p` staying put after each unlink.
     */
    method Remove(win: Handle)
      modifies this
      ensures hooks == Without(old(hooks), win)
      ensures forall h | h in hooks :: h.userdata != Some(win)
    {
      while hooks != [] && hooks[0].userdata == Some(win)
        invariant Without(hooks, win) == Without(old(hooks), win)
        decreases |hooks|
      {
        hooks := hooks[1..];
      }
      if hooks == [] {
        return;
      }
      var i := 1;
      while i < |hooks|
        invariant 1 <= i <= |hooks|
        invariant Without(hooks, win) == Without(old(hooks), win)
        invariant forall j | 0 <= j < i :: hooks[j].userdata != Some(win)
        decreases |hooks| - i
      {
        if hooks[i].userdata == Some(win) {
          WithoutSkip(hooks, i, win);
          hooks := hooks[..i] + hooks[i + 1..];
        } else {
          i := i + 1;
        }
      }
      WithoutNone(hooks, win);
    }
  }

  /** The owned hooks at the head of the list, which the first loop frees. */
  function LeadingOwned(hs: seq<Hook>, win: Handle): (n: nat)
    ensures n <= |hs| && forall j | 0 <= j < n :: hs[j].userdata == Some(win)
    ensures n < |hs| ==> hs[n].userdata != Some(win)
  {
    if hs != [] && hs[0].userdata == Some(win) then 1 + LeadingOwned(hs[1..], win) else 0
  }

  /** The index of the first owned hook in hs, or |hs| when there is none. */
  function FirstOwned(hs: seq<Hook>, win: Handle): (k: nat)
    ensures k <= |hs| && forall j | 0 <= j < k :: hs[j].userdata != Some(win)
    ensures k < |hs| ==> hs[k].userdata == Some(win)
  {
    if hs == [] then 0
    else if hs[0].userdata == Some(win) then 0
    else 1 + FirstOwned(hs[1..], win)
  }

  /**
   * The list `remove_from_global_hooks` leaves, as written. After the
   * first unlink in the second loop both `p` and `w` advance to the same
   * node, so `p->next = w->next` no longer unlinks anything: every later
   * owned hook is freed but stays in the list.
   */
  function RemoveAsWritten(hs: seq<Hook>, win: Handle): (r: seq<Hook>)
    ensures |r| <= |hs|
  {
    var t := hs[LeadingOwned(hs, win)..];
    if t == [] then []
    else
      var k := FirstOwned(t[1..], win);
      if k == |t| - 1 then t else [t[0]] + t[1..][..k] + t[1..][k + 1..]
  }

  /**
   * With the list [other, win, win] the second of win's hooks is freed yet
   * still linked after the first: `send_message` would later call it.
   */
  lemma RemoveAsWrittenLeavesFreedHook(other: Handle, win: Handle, f: HookFunc, msg: int)
    requires other != win
    ensures var hs := [Hook(f, msg, Some(other)), Hook(f, msg, Some(win)), Hook(f, msg, Some(win))];
      && RemoveAsWritten(hs, win) == [Hook(f, msg, Some(other)), Hook(f, msg, Some(win))]
      && Without(hs, win) == [Hook(f, msg, Some(other))]
  {
    var hs := [Hook(f, msg, Some(other)), Hook(f, msg, Some(win)), Hook(f, msg, Some(win))];
    assert LeadingOwned(hs, win) == 0;
    assert hs[1..] == [Hook(f, msg, Some(win)), Hook(f, msg, Some(win))];
    assert FirstOwned(hs[1..], win) == 0;
    assert hs[1..][1..] == [Hook(f, msg, Some(win))];
    assert hs[1..][1..][1..] == [];
    assert Without(hs[1..][1..], win) == [];
    assert Without(hs[1..], win) == [];
  }
}
