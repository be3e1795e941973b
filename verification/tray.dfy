/**
 * commctl/tray.c: the task bar. It holds one push button per top-level
 * window, laid out left to right from x = 22 with 4 pixels between them;
 * `cursor_pos` is where the next button goes. Hooks on WM_CREATE and
 * WM_DESTROY add and remove buttons as windows come and go, and clicking
 * a button shows or hides its window.
 */
module Tray {
  import opened Words
  import opened Messages
  import opened User
  import opened Control

  const TRAY_START: int := 22
  const SPACING: int := 4
  const TRAY_HEIGHT: int := BUTTON_HEIGHT + 4

  /** A button of the tray: its frame and the window it stands for (its `userdata`). */
  datatype TrayButton = TrayButton(frame: Rect, owner: Handle)

  /** What the tray asks of the rest of the system. */
  datatype Action =
    /** `destroy_window(button)` */
    | Destroyed(button: TrayButton)
    /** `invalidate_window(tray)` */
    | Invalidated
    /** `show_window(owner, visible)` */
    | Shown(owner: Handle, visible: bool)

  /** The room the buttons take: each one's width plus the spacing. */
  function Span(bs: seq<TrayButton>): int {
    if bs == [] then 0 else Span(bs[..|bs| - 1]) + bs[|bs| - 1].frame.w + SPACING
  }

  lemma {:induction false} SpanConcat(a: seq<TrayButton>, b: seq<TrayButton>)
    ensures Span(a + b) == Span(a) + Span(b)
    decreases |b|
  {
    if b == [] {
      assert a + b == a;
    } else {
      assert (a + b)[..|a + b| - 1] == a + b[..|b| - 1];
      SpanConcat(a, b[..|b| - 1]);
    }
  }

  /** Every button sits right after the ones before it. */
  ghost predicate Laid(bs: seq<TrayButton>) {
    forall i | 0 <= i < |bs| :: bs[i].frame.x == TRAY_START + Span(bs[..i])
  }

  /** A button moved left by d. */
  function Moved(b: TrayButton, d: int): (r: TrayButton)
    ensures r.owner == b.owner && r.frame.w == b.frame.w
  {
    b.(frame := b.frame.(x := b.frame.x - d))
  }

  /** Buttons moved left by d, in order. */
  function Shifted(bs: seq<TrayButton>, d: int): (r: seq<TrayButton>)
    ensures |r| == |bs|
    ensures forall i | 0 <= i < |bs| :: r[i] == Moved(bs[i], d)
  {
    if bs == [] then [] else Shifted(bs[..|bs| - 1], d) + [Moved(bs[|bs| - 1], d)]
  }

  lemma {:induction false} SpanShifted(bs: seq<TrayButton>, d: int)
    ensures Span(Shifted(bs, d)) == Span(bs)
    decreases |bs|
  {
    if bs != [] {
      var r := Shifted(bs, d);
      assert r[..|r| - 1] == Shifted(bs[..|bs| - 1], d);
      SpanShifted(bs[..|bs| - 1], d);
    }
  }

  /** The buttons after removing button k: the later ones close the gap it leaves. */
  function Removed(bs: seq<TrayButton>, k: int): (r: seq<TrayButton>)
    requires 0 <= k < |bs|
    ensures |r| == |bs| - 1
  {
    bs[..k] + Shifted(bs[k + 1..], bs[k].frame.w + SPACING)
  }

  /** The index of the first button standing for `owner`, or -1. */
  function FirstOwned(bs: seq<TrayButton>, owner: Handle): (k: int)
    ensures -1 <= k < |bs|
    ensures k == -1 <==> forall i | 0 <= i < |bs| :: bs[i].owner != owner
    ensures k != -1 ==> bs[k].owner == owner && forall i | 0 <= i < k :: bs[i].owner != owner
  {
    if bs == [] then -1
    else if bs[0].owner == owner then 0
    else
      var k := FirstOwned(bs[1..], owner);
      if k == -1 then -1 else k + 1
  }

  /** Past the removed button, the room before button i shrinks by the removed button's room. */
  lemma {:induction false} SpanAfterRemoval(bs: seq<TrayButton>, k: int, i: int)
    requires 0 <= k <= i < |bs| - 1
    ensures Span(Removed(bs, k)[..i]) == Span(bs[..i + 1]) - (bs[k].frame.w + SPACING)
  {
    var d := bs[k].frame.w + SPACING;
    var tail := bs[k + 1..i + 1];
    assert Removed(bs, k)[..i] == bs[..k] + Shifted(tail, d);
    SpanConcat(bs[..k], Shifted(tail, d));
    SpanShifted(tail, d);
    assert bs[..i + 1] == bs[..k + 1] + tail;
    SpanConcat(bs[..k + 1], tail);
    assert bs[..k + 1][..k] == bs[..k];
  }

  /** Button i of the tray without button k sits right after the buttons before it. */
  lemma {:induction false} RemovedAt(bs: seq<TrayButton>, k: int, i: int)
    requires Laid(bs) && 0 <= k < |bs| && 0 <= i < |bs| - 1
    ensures Removed(bs, k)[i].frame.x == TRAY_START + Span(Removed(bs, k)[..i])
  {
    var r := Removed(bs, k);
    if i < k {
      assert r[..i] == bs[..i];
      assert bs[i].frame.x == TRAY_START + Span(bs[..i]);
    } else {
      assert bs[i + 1].frame.x == TRAY_START + Span(bs[..i + 1]);
      SpanAfterRemoval(bs, k, i);
    }
  }

  /** Removing a button keeps the layout packed and frees exactly its room. */
  lemma {:induction false} RemovedLaid(bs: seq<TrayButton>, k: int)
    requires Laid(bs) && 0 <= k < |bs|
    ensures Laid(Removed(bs, k))
    ensures Span(Removed(bs, k)) == Span(bs) - (bs[k].frame.w + SPACING)
  {
    var d := bs[k].frame.w + SPACING;
    var r := Removed(bs, k);
    forall i | 0 <= i < |r|
      ensures r[i].frame.x == TRAY_START + Span(r[..i])
    {
      RemovedAt(bs, k, i);
    }
    assert bs[..k + 1][..k] == bs[..k];
    assert bs == bs[..k + 1] + bs[k + 1..];
    SpanConcat(bs[..k + 1], bs[k + 1..]);
    SpanConcat(bs[..k], Shifted(bs[k + 1..], d));
    SpanShifted(bs[k + 1..], d);
  }

  /** A button added for a window that had none, then removed, leaves the tray as it was. */
  lemma {:induction false} AddThenRemove(bs: seq<TrayButton>, b: TrayButton)
    requires forall i | 0 <= i < |bs| :: bs[i].owner != b.owner
    ensures FirstOwned(bs + [b], b.owner) == |bs|
    ensures Removed(bs + [b], |bs|) == bs
  {
    var s := bs + [b];
    assert s[|bs|] == b;
    assert forall i | 0 <= i < |bs| :: s[i].owner != b.owner;
    assert s[..|bs|] == bs;
  }

  /** The frame `create_button` gives a new button at x: 0 wide and 12 high, grown by the button's WM_CREATE. */
  function ButtonFrame(x: int, tw: int): (r: Rect)
    ensures r.x == x && r.y == 2 && r.w == Max(0, tw + 6) && r.h == BUTTON_HEIGHT
  {
    Grown(Rect(x, 2, 0, 12), tw + 6, BUTTON_HEIGHT)
  }

  class TrayWindow {
    var frame: Rect
    var cursorPos: int
    var buttons: seq<TrayButton>

    /** The buttons are packed from x = 22, and `cursor_pos` is just past the last one. */
    ghost predicate Valid()
      reads this
    {
      Laid(buttons) && cursorPos == TRAY_START + Span(buttons)
    }

    /**
     * WM_CREATE: `cursor_pos` 22 and a strip along the bottom of the
     * screen, as wide as the screen and 17 high.
     */
    constructor (screenW: int, screenH: int)
      ensures Valid() && buttons == []
      ensures cursorPos == TRAY_START
      ensures frame == Rect(0, screenH - TRAY_HEIGHT, screenW, TRAY_HEIGHT)
    {
      frame := Rect(0, screenH - TRAY_HEIGHT, screenW, TRAY_HEIGHT);
      cursorPos := TRAY_START;
      buttons := [];
    }

    /** `create_button`: a button at `cursor_pos`, which then moves past it (tw is strwidth of the title). */
    method CreateButton(owner: Handle, tw: int)
      requires Valid()
      modifies this
      ensures Valid() && frame == old(frame)
      ensures buttons == old(buttons) + [TrayButton(ButtonFrame(old(cursorPos), tw), owner)]
      ensures cursorPos == old(cursorPos) + Max(0, tw + 6) + SPACING
    {
      var b := TrayButton(ButtonFrame(cursorPos, tw), owner);
      ghost var bs := buttons;
      buttons := buttons + [b];
      cursorPos := cursorPos + b.frame.w + SPACING;
      assert buttons[..|bs|] == bs;
      forall i | 0 <= i < |buttons|
        ensures buttons[i].frame.x == TRAY_START + Span(buttons[..i])
      {
        if i < |bs| {
          assert buttons[..i] == bs[..i];
        }
      }
    }

    /** The WM_CREATE hook: a button for every top-level window without WINDOW_NOTRAYBUTTON. */
    method OnWinCreated(owner: Handle, topLevel: bool, flags: Flags, tw: int)
      requires Valid()
      modifies this
      ensures Valid() && frame == old(frame)
      ensures topLevel && !Has(flags, WINDOW_NOTRAYBUTTON) ==>
        buttons == old(buttons) + [TrayButton(ButtonFrame(old(cursorPos), tw), owner)]
      ensures !(topLevel && !Has(flags, WINDOW_NOTRAYBUTTON)) ==>
        buttons == old(buttons) && cursorPos == old(cursorPos)
    {
      if topLevel && !Has(flags, WINDOW_NOTRAYBUTTON) {
        CreateButton(owner, tw);
      }
    }

    /**
     * The WM_DESTROY hook, for a top-level window: the first button standing
     * for it is unlinked and destroyed, every later button moves left by its
     * width plus 4, and so does `cursor_pos`. Nothing happens when no button
     * stands for the window.
     */
    method OnWinDestroyed(owner: Handle, topLevel: bool) returns (fx: seq<Action>)
      requires Valid()
      modifies this
      ensures Valid() && frame == old(frame)
      ensures var k := FirstOwned(old(buttons), owner);
        if !topLevel || k == -1 then
          buttons == old(buttons) && cursorPos == old(cursorPos) && fx == []
        else
          && buttons == Removed(old(buttons), k)
          && cursorPos == old(cursorPos) - (old(buttons)[k].frame.w + SPACING)
          && fx == [Destroyed(old(buttons)[k]), Invalidated]
    {
      if !topLevel {
        return [];
      }
      var k := Find(buttons, owner);
      if k == -1 {
        return [];
      }
      var b := buttons[k];
      var kept := CloseGap(buttons, k);
      RemovedLaid(buttons, k);
      buttons := kept;
      cursorPos := cursorPos - (b.frame.w + SPACING);
      fx := [Destroyed(b), Invalidated];
    }

    /** The search of the hook: the first button whose `userdata` is the window. */
    static method Find(bs: seq<TrayButton>, owner: Handle) returns (k: int)
      ensures k == FirstOwned(bs, owner)
    {
      k := 0;
      while k < |bs| && bs[k].owner != owner
        invariant 0 <= k <= |bs|
        invariant forall j | 0 <= j < k :: bs[j].owner != owner
      {
        k := k + 1;
      }
      if k == |bs| {
        k := -1;
      }
    }

    /** Unlinking button k and moving every later button left by its width plus 4. */
    static method CloseGap(bs: seq<TrayButton>, k: int) returns (kept: seq<TrayButton>)
      requires 0 <= k < |bs|
      ensures kept == Removed(bs, k)
    {
      var d := bs[k].frame.w + SPACING;
      kept := bs[..k];
      var i := k + 1;
      while i < |bs|
        invariant k + 1 <= i <= |bs| && |kept| == i - 1
        invariant forall j | 0 <= j < k :: kept[j] == bs[j]
        invariant forall j | k <= j < i - 1 :: kept[j] == Moved(bs[j + 1], d)
      {
        kept := kept + [Moved(bs[i], d)];
        i := i + 1;
      }
    }

    /** WM_COMMAND: BN_CLICKED from a button shows its window if hidden and hides it if shown. */
    method Command(w: U32, button: TrayButton, visible: bool) returns (r: int, fx: seq<Action>)
      ensures r == 1
      ensures HiWord(w) == BN_CLICKED ==> fx == [Shown(button.owner, !visible)]
      ensures HiWord(w) != BN_CLICKED ==> fx == []
    {
      if HiWord(w) == BN_CLICKED {
        return 1, [Shown(button.owner, !visible)];
      }
      return 1, [];
    }
  }

  /** Neighbouring buttons are exactly 4 pixels apart, and the last one ends 4 before `cursor_pos`. */
  lemma {:induction false} Gaps(bs: seq<TrayButton>, i: int)
    requires Laid(bs) && 0 <= i < |bs|
    ensures i + 1 < |bs| ==> bs[i + 1].frame.x == bs[i].frame.x + bs[i].frame.w + SPACING
    ensures i + 1 == |bs| ==> TRAY_START + Span(bs) == bs[i].frame.x + bs[i].frame.w + SPACING
  {
    assert bs[..i + 1][..i] == bs[..i];
    if i + 1 == |bs| {
      assert bs[..i + 1] == bs;
    }
  }
}
