/**
 * What the common controls of commctl/ share: the fields of `window_t`
 * their procedures read and write, and the requests a procedure makes of
 * the rest of the toolkit while it handles a message.
 *
 * A control procedure runs with the window record in hand and calls
 * `invalidate_window`, `send_message(get_root_window(win), WM_COMMAND, …)`
 * and the like. Those calls are returned, in order, as a sequence of
 * `Effect`s; what the desktop does with them is modelled in Desktop.
 * `strwidth(win->title)` is passed in as a number (Text.FontAtlas.StrWidth
 * computes it).
 */
module Control {
  import opened Words
  import opened Messages
  import opened User

  /** A request a procedure makes while it handles one message. */
  datatype Effect =
    /** `invalidate_window(win)` */
    | Invalidate
    /** `send_message(get_root_window(win), WM_COMMAND, wparam, win)` */
    | Notify(wparam: U32)
    /** `send_message(get_root_window(win), WM_COMMAND, wparam, (void*)index)` */
    | NotifyIndex(wparam: U32, index: int)
    /** `send_message(get_root_window(cb), WM_COMMAND, wparam, cb)` for the combobox a list belongs to. */
    | OwnerNotify(wparam: U32)
    /** `destroy_window(win)` */
    | DestroySelf
    /** The combobox drop-down: `create_window` of a list at `frame`, LIST_SELITEM, `set_capture`. */
    | DropDown(frame: Rect)
    /** `show_window(owner, visible)` for the window a tray button stands for. */
    | ShowOwner(visible: bool)

  /** The fields of `window_t` the control procedures use. */
  class Win {
    var frame: Rect
    var id: int
    var title: string
    var pressed: bool
    var value: bool
    var notabstop: bool
    var editing: bool
    var cursorPos: int

    /** The record as `create_window` leaves it before WM_CREATE: flags all clear. */
    constructor (frame: Rect, id: int, title: string)
      ensures this.frame == frame && this.id == id && this.title == TitleCopy(title)
      ensures !pressed && !value && !notabstop && !editing && cursorPos == 0
    {
      this.frame := frame;
      this.id := id;
      this.title := TitleCopy(title);
      pressed, value, notabstop, editing, cursorPos := false, false, false, false, 0;
    }
  }

  /** The keys that press a button or checkbox: Return and Space. */
  predicate Activates(key: U32) {
    key == SCANCODE_RETURN || key == SCANCODE_SPACE
  }

  /** `MAKEDWORD(win->id, BN_CLICKED)` */
  function Clicked(id: int): (w: U32)
    ensures LoWord(w) == ToU16(id) && HiWord(w) == BN_CLICKED
  {
    MakeDword(id, BN_CLICKED)
  }

  /**
   * The WM_CREATE sizing of the buttons: `frame.w = MAX(frame.w, minW)`
   * and `frame.h = MAX(frame.h, minH)`.
   */
  function Grown(f: Rect, minW: int, minH: int): (r: Rect)
    ensures r.x == f.x && r.y == f.y
    ensures r.w >= f.w && r.w >= minW && (r.w == f.w || r.w == minW)
    ensures r.h >= f.h && r.h >= minH && (r.h == f.h || r.h == minH)
  {
    f.(w := Max(f.w, minW), h := Max(f.h, minH))
  }

  /** A message as a procedure receives it (lparam is not needed). */
  datatype Input = Input(msg: int, wparam: U32)

  /** Ends a press: the left button or an activating key going up. */
  predicate Release(m: Input) {
    m.msg == WM_LBUTTONUP || (m.msg == WM_KEYUP && Activates(m.wparam))
  }

  /** Starts a press: the left button or an activating key going down. */
  predicate Press(m: Input) {
    m.msg == WM_LBUTTONDOWN || (m.msg == WM_KEYDOWN && Activates(m.wparam))
  }

  /** How many inputs end a press. */
  function Releases(ms: seq<Input>): (n: nat)
    ensures n <= |ms|
  {
    if ms == [] then 0 else (if Release(ms[0]) then 1 else 0) + Releases(ms[1..])
  }

  /** How many BN_CLICKED-style notifications a run of effects holds. */
  function Notifications(fx: seq<Effect>, w: U32): (n: nat)
    ensures n <= |fx|
  {
    if fx == [] then 0 else (if fx[0] == Notify(w) then 1 else 0) + Notifications(fx[1..], w)
  }

  lemma {:induction false} NotificationsAppend(a: seq<Effect>, b: seq<Effect>, w: U32)
    ensures Notifications(a + b, w) == Notifications(a, w) + Notifications(b, w)
  {
    if a == [] {
      assert a + b == b;
    } else {
      assert (a + b)[1..] == a[1..] + b;
      NotificationsAppend(a[1..], b, w);
    }
  }

  /** n mouse clicks: a button-down and a button-up each. */
  function Clicks(n: nat): (ms: seq<Input>)
    ensures |ms| == 2 * n && Releases(ms) == n
    ensures n > 0 ==> ms[2 * n - 1] == Input(WM_LBUTTONUP, 0)
  {
    if n == 0 then [] else
      var ms := [Input(WM_LBUTTONDOWN, 0), Input(WM_LBUTTONUP, 0)] + Clicks(n - 1);
      assert ms[1..][1..] == Clicks(n - 1);
      ms
  }
}
