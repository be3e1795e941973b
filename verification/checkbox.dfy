/**
 * commctl/checkbox.c: the checkbox's `pressed` and `value` machine. A
 * release flips `value` by sending the checkbox BM_GETCHECK and then
 * BM_SETCHECK with the negation, and notifies the root with BN_CLICKED.
 */
module Checkbox {
  import opened Words
  import opened Messages
  import opened User
  import opened Control

  datatype Reply = Reply(result: int, pressed: bool, value: bool, effects: seq<Effect>)

  /** `win_checkbox` for one message; WM_CREATE also sizes the frame (see CheckboxProc). */
  function React(pressed: bool, value: bool, id: int, m: Input): (r: Reply)
  {
    if Press(m) then Reply(1, true, value, [Invalidate])
    else if Release(m) then Reply(1, false, !value, [Notify(Clicked(id)), Invalidate])
    else if m.msg == BM_SETCHECK then Reply(1, pressed, m.wparam != BST_UNCHECKED, [])
    else if m.msg == BM_GETCHECK then Reply(if value then BST_CHECKED else BST_UNCHECKED, pressed, value, [])
    else if m.msg == WM_CREATE || m.msg == WM_PAINT then Reply(1, pressed, value, [])
    else Reply(0, pressed, value, [])
  }

  /** C's `!`: 1 for zero, 0 otherwise. */
  function Not(v: int): (r: U32)
    ensures r == 1 <==> v == 0
    ensures r == 0 <==> v != 0
  {
    if v == 0 then 1 else 0
  }

  /** `win_checkbox`; its messages to itself go straight to this procedure. */
  method CheckboxProc(win: Win, m: Input, tw: int) returns (r: int, fx: seq<Effect>)
    modifies win`pressed, win`value, win`frame
    decreases if Release(m) then 1 else 0
    ensures var x := React(old(win.pressed), old(win.value), win.id, m);
      r == x.result && win.pressed == x.pressed && win.value == x.value && fx == x.effects
    ensures win.frame == if m.msg == WM_CREATE then Grown(old(win.frame), tw + 16, BUTTON_HEIGHT) else old(win.frame)
  {
    r, fx := 0, [];
    if m.msg == WM_CREATE {
      win.frame := Grown(win.frame, tw + 16, BUTTON_HEIGHT);
      r := 1;
    } else if m.msg == WM_PAINT {
      r := 1;
    } else if m.msg == WM_LBUTTONDOWN || (m.msg == WM_KEYDOWN && (m.wparam == SCANCODE_RETURN || m.wparam == SCANCODE_SPACE)) {
      win.pressed := true;
      r, fx := 1, [Invalidate];
    } else if m.msg == WM_LBUTTONUP || (m.msg == WM_KEYUP && (m.wparam == SCANCODE_RETURN || m.wparam == SCANCODE_SPACE)) {
      win.pressed := false;
      var checked, _ := CheckboxProc(win, Input(BM_GETCHECK, 0), tw);
      var _, _ := CheckboxProc(win, Input(BM_SETCHECK, Not(checked)), tw);
      r, fx := 1, [Notify(Clicked(win.id)), Invalidate];
    } else if m.msg == BM_SETCHECK {
      win.value := m.wparam != BST_UNCHECKED;
      r := 1;
    } else if m.msg == BM_GETCHECK {
      r := if win.value then BST_CHECKED else BST_UNCHECKED;
    }
  }

  /** The flags and requests after a run of messages. */
  datatype Trace = Trace(pressed: bool, value: bool, effects: seq<Effect>)

  function Run(pressed: bool, value: bool, id: int, ms: seq<Input>): (t: Trace)
    decreases |ms|
  {
    if ms == [] then Trace(pressed, value, [])
    else
      var x := React(pressed, value, id, ms[0]);
      var rest := Run(x.pressed, x.value, id, ms[1..]);
      Trace(rest.pressed, rest.value, x.effects + rest.effects)
  }

  /** No BM_SETCHECK among the inputs: only clicks and keys reach the value. */
  predicate Unset(ms: seq<Input>) {
    forall i | 0 <= i < |ms| :: ms[i].msg != BM_SETCHECK
  }

  /**
   * Without BM_SETCHECK, every release flips `value` once and notifies
   * the root once, and nothing else does either.
   */
  lemma {:induction false} RunToggles(pressed: bool, value: bool, id: int, ms: seq<Input>)
    requires Unset(ms)
    ensures Run(pressed, value, id, ms).value == (value != (Releases(ms) % 2 == 1))
    ensures Notifications(Run(pressed, value, id, ms).effects, Clicked(id)) == Releases(ms)
    decreases |ms|
  {
    if ms != [] {
      var x := React(pressed, value, id, ms[0]);
      var rest := Run(x.pressed, x.value, id, ms[1..]);
      assert Run(pressed, value, id, ms).value == rest.value;
      assert Run(pressed, value, id, ms).effects == x.effects + rest.effects;
      assert Unset(ms[1..]) by {
        forall i | 0 <= i < |ms[1..]| ensures ms[1..][i].msg != BM_SETCHECK {
          assert ms[1..][i] == ms[i + 1];
        }
      }
      RunToggles(x.pressed, x.value, id, ms[1..]);
      ReactFlips(pressed, value, id, ms[0]);
      NotificationsAppend(x.effects, rest.effects, Clicked(id));
      assert Releases(ms) == (if Release(ms[0]) then 1 else 0) + Releases(ms[1..]);
      Parity(Release(ms[0]), Releases(ms[1..]));
    }
  }

  /** One more release flips the parity of the count exactly when there is one. */
  lemma Parity(b: bool, n: nat)
    ensures ((if b then 1 else 0) + n) % 2 == 1 <==> (b != (n % 2 == 1))
  {
  }

  /** One input other than BM_SETCHECK flips the value and notifies exactly when it is a release. */
  lemma ReactFlips(pressed: bool, value: bool, id: int, m: Input)
    requires m.msg != BM_SETCHECK
    ensures React(pressed, value, id, m).value == (value != Release(m))
    ensures Notifications(React(pressed, value, id, m).effects, Clicked(id)) == if Release(m) then 1 else 0
  {
    var x := React(pressed, value, id, m);
    if Release(m) {
      assert x.effects[1..][1..] == [];
    } else if Press(m) {
      assert x.effects[1..] == [];
    }
  }

  /** Two complete clicks restore the original value, with two notifications. */
  lemma TwoClicksRestore(pressed: bool, value: bool, id: int)
    ensures Run(pressed, value, id, Clicks(2)).value == value
    ensures Notifications(Run(pressed, value, id, Clicks(2)).effects, Clicked(id)) == 2
  {
    var ms := Clicks(2);
    assert Unset(ms) by {
      assert ms == [Input(WM_LBUTTONDOWN, 0), Input(WM_LBUTTONUP, 0), Input(WM_LBUTTONDOWN, 0), Input(WM_LBUTTONUP, 0)];
    }
    RunToggles(pressed, value, id, ms);
  }

  /** BM_GETCHECK reads back what BM_SETCHECK stored, as 1 or 0, and neither touches `pressed`. */
  lemma SetThenGet(pressed: bool, value: bool, id: int, w: U32)
    ensures var s := React(pressed, value, id, Input(BM_SETCHECK, w));
      s.pressed == pressed && s.value == (w != 0) &&
      React(s.pressed, s.value, id, Input(BM_GETCHECK, 0)) == Reply(if w != 0 then 1 else 0, pressed, w != 0, [])
  {
  }
}
