/**
 * commctl/button.c: the push button's `pressed` machine, its BN_CLICKED
 * notification, and the `win_space` spacer that handles nothing.
 */
module Button {
  import opened Words
  import opened Messages
  import opened User
  import opened Control

  /** What `win_button` does with one message: its result, the new `pressed`, its requests. */
  datatype Reply = Reply(result: int, pressed: bool, effects: seq<Effect>)

  /** `win_button` for one message; WM_CREATE also sizes the frame (see ButtonProc). */
  function React(pressed: bool, id: int, m: Input): (r: Reply)
  {
    if Press(m) then Reply(1, true, [Invalidate])
    else if Release(m) then Reply(1, false, [Notify(Clicked(id)), Invalidate])
    else if m.msg == WM_CREATE || m.msg == WM_PAINT then Reply(1, pressed, [])
    else Reply(0, pressed, [])
  }

  /** `win_button` */
  method ButtonProc(win: Win, m: Input, tw: int) returns (r: int, fx: seq<Effect>)
    modifies win`pressed, win`frame
    ensures var x := React(old(win.pressed), win.id, m);
      r == x.result && win.pressed == x.pressed && fx == x.effects
    ensures win.frame == if m.msg == WM_CREATE then Grown(old(win.frame), tw + 6, BUTTON_HEIGHT) else old(win.frame)
  {
    r, fx := 0, [];
    if m.msg == WM_CREATE {
      win.frame := Grown(win.frame, tw + 6, BUTTON_HEIGHT);
      r := 1;
    } else if m.msg == WM_PAINT {
      r := 1;
    } else if m.msg == WM_LBUTTONDOWN {
      win.pressed := true;
      r, fx := 1, [Invalidate];
    } else if m.msg == WM_LBUTTONUP {
      win.pressed := false;
      r, fx := 1, [Notify(Clicked(win.id)), Invalidate];
    } else if m.msg == WM_KEYDOWN {
      if m.wparam == SCANCODE_RETURN || m.wparam == SCANCODE_SPACE {
        win.pressed := true;
        r, fx := 1, [Invalidate];
      }
    } else if m.msg == WM_KEYUP {
      if m.wparam == SCANCODE_RETURN || m.wparam == SCANCODE_SPACE {
        win.pressed := false;
        r, fx := 1, [Notify(Clicked(win.id)), Invalidate];
      }
    }
  }

  /** `win_space`: a spacer that leaves every message to the core defaults. */
  method SpaceProc(win: Win, m: Input) returns (r: int)
    ensures r == 0
  {
    r := 0;
  }

  /** The `pressed` flag and the requests after a run of messages. */
  datatype Trace = Trace(pressed: bool, effects: seq<Effect>)

  function Run(pressed: bool, id: int, ms: seq<Input>): (t: Trace)
    decreases |ms|
  {
    if ms == [] then Trace(pressed, [])
    else
      var x := React(pressed, id, ms[0]);
      var rest := Run(x.pressed, id, ms[1..]);
      Trace(rest.pressed, x.effects + rest.effects)
  }

  /** One input notifies the root exactly when it is a release. */
  lemma ReactNotifies(pressed: bool, id: int, m: Input)
    ensures Notifications(React(pressed, id, m).effects, Clicked(id)) == if Release(m) then 1 else 0
  {
    var x := React(pressed, id, m);
    if Release(m) {
      assert x.effects[1..][1..] == [];
    } else if Press(m) {
      assert x.effects[1..] == [];
    }
  }

  /** Every release, and nothing else, notifies the root once with BN_CLICKED. */
  lemma {:induction false} RunNotifies(pressed: bool, id: int, ms: seq<Input>)
    ensures Notifications(Run(pressed, id, ms).effects, Clicked(id)) == Releases(ms)
    decreases |ms|
  {
    if ms != [] {
      var x := React(pressed, id, ms[0]);
      var rest := Run(x.pressed, id, ms[1..]);
      assert Run(pressed, id, ms).effects == x.effects + rest.effects;
      RunNotifies(x.pressed, id, ms[1..]);
      NotificationsAppend(x.effects, rest.effects, Clicked(id));
      ReactNotifies(pressed, id, ms[0]);
    }
  }

  /** After a run of inputs, `pressed` tells whether the last press or release was a press. */
  lemma {:induction false} RunPressed(pressed: bool, id: int, ms: seq<Input>)
    ensures ms != [] && Release(ms[|ms| - 1]) ==> !Run(pressed, id, ms).pressed
    ensures ms != [] && Press(ms[|ms| - 1]) ==> Run(pressed, id, ms).pressed
    ensures (forall i | 0 <= i < |ms| :: !Press(ms[i]) && !Release(ms[i])) ==> Run(pressed, id, ms).pressed == pressed
    decreases |ms|
  {
    if ms != [] {
      var x := React(pressed, id, ms[0]);
      RunPressed(x.pressed, id, ms[1..]);
      if |ms| > 1 {
        assert ms[1..][|ms[1..]| - 1] == ms[|ms| - 1];
      }
      if forall i | 0 <= i < |ms| :: !Press(ms[i]) && !Release(ms[i]) {
        assert !Press(ms[0]) && !Release(ms[0]);
        forall i | 0 <= i < |ms[1..]| ensures !Press(ms[1..][i]) && !Release(ms[1..][i]) {
          assert ms[1..][i] == ms[i + 1];
        }
      }
    }
  }

  /** N down/up pairs end released and send exactly N BN_CLICKED notifications. */
  lemma ClicksNotify(pressed: bool, id: int, n: nat)
    ensures Notifications(Run(pressed, id, Clicks(n)).effects, Clicked(id)) == n
    ensures n > 0 ==> !Run(pressed, id, Clicks(n)).pressed
  {
    RunNotifies(pressed, id, Clicks(n));
    RunPressed(pressed, id, Clicks(n));
  }

  /** Return and Space behave as the left button; any other key is refused and changes nothing. */
  lemma KeysMirrorMouse(pressed: bool, id: int, key: U32, w: U32)
    ensures Activates(key) ==> React(pressed, id, Input(WM_KEYDOWN, key)) == React(pressed, id, Input(WM_LBUTTONDOWN, w))
    ensures Activates(key) ==> React(pressed, id, Input(WM_KEYUP, key)) == React(pressed, id, Input(WM_LBUTTONUP, w))
    ensures !Activates(key) ==> React(pressed, id, Input(WM_KEYDOWN, key)) == Reply(0, pressed, [])
    ensures !Activates(key) ==> React(pressed, id, Input(WM_KEYUP, key)) == Reply(0, pressed, [])
  {
  }
}
