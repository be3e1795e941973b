/**
 * commctl/combobox.c: a button that owns a table of up to 256 strings of
 * 64 bytes each. The number of strings is kept in the window's
 * `cursor_pos`; the current choice is the window title. Messages the
 * combobox does not handle itself go to `win_button`.
 */
module ComboBox {
  import opened Wrappers
  import opened Words
  import opened Messages
  import opened User
  import opened Control
  import Button

  const MAX_COMBOBOX_STRINGS: int := 256
  /** The height of the drop-down list window. */
  const DROP_HEIGHT: int := 100

  /** `strncmp(a, b, 64) == 0`: the texts agree on their first 64 bytes. */
  predicate SameText(a: string, b: string) {
    TitleCopy(a) == TitleCopy(b)
  }

  /** The index CB_GETCURSEL finds: the first entry with the text t, or CB_ERR. */
  function FirstMatch(es: seq<string>, t: string): (r: int)
    ensures CB_ERR <= r < |es|
    ensures r == CB_ERR <==> forall i | 0 <= i < |es| :: !SameText(es[i], t)
    ensures r != CB_ERR ==> SameText(es[r], t) && forall i | 0 <= i < r :: !SameText(es[i], t)
  {
    if es == [] then CB_ERR
    else
      var k := FirstMatch(es[..|es| - 1], t);
      if k != CB_ERR then k
      else if SameText(es[|es| - 1], t) then |es| - 1
      else CB_ERR
  }

  /** The first entry with the text is the one FirstMatch finds. */
  lemma FirstAt(es: seq<string>, t: string, i: int)
    requires 0 <= i < |es| && SameText(es[i], t)
    requires forall j | 0 <= j < i :: !SameText(es[j], t)
    ensures FirstMatch(es, t) == i
  {
  }

  /** Selecting entry i and reading the selection back finds i or an earlier entry with the same text. */
  lemma SelectionFound(es: seq<string>, i: int)
    requires 0 <= i < |es|
    ensures 0 <= FirstMatch(es, es[i]) <= i
    ensures SameText(es[FirstMatch(es, es[i])], es[i])
    ensures (forall j | 0 <= j < i :: !SameText(es[j], es[i])) ==> FirstMatch(es, es[i]) == i
  {
  }

  /** After adding t, the selection reads back as the new index unless an earlier entry has that text. */
  lemma {:induction false} AddedFound(es: seq<string>, t: string)
    ensures FirstMatch(es + [t], t) == if FirstMatch(es, t) != CB_ERR then FirstMatch(es, t) else |es|
  {
    assert (es + [t])[..|es|] == es;
  }

  /** The combobox window and the string table its `userdata` points at. */
  class Combo {
    const win: Win
    const texts: array<string>

    ghost predicate Valid()
      reads this, win, texts
    {
      && texts.Length == MAX_COMBOBOX_STRINGS
      && 0 <= win.cursorPos <= MAX_COMBOBOX_STRINGS
      && |win.title| <= TITLE_SIZE
      && forall i | 0 <= i < win.cursorPos :: |texts[i]| <= TITLE_SIZE
    }

    /** The strings added so far. */
    ghost function Entries(): (es: seq<string>)
      reads this, win, texts
      requires Valid()
      ensures |es| == win.cursorPos
    {
      texts[..win.cursorPos]
    }

    /**
     * WM_CREATE: the button sizing, then at least strwidth(title) + 16
     * wide, and a fresh string table (`tw` is strwidth(title)).
     */
    constructor (win: Win, tw: int)
      requires win.cursorPos == 0 && |win.title| <= TITLE_SIZE
      modifies win`frame, win`pressed
      ensures this.win == win && Valid() && Entries() == [] && fresh(texts)
      ensures win.frame == Grown(old(win.frame), tw + 16, BUTTON_HEIGHT) && win.pressed == old(win.pressed)
    {
      var _, _ := Button.ButtonProc(win, Input(WM_CREATE, 0), tw);
      win.frame := win.frame.(w := Max(win.frame.w, tw + 16));
      this.win := win;
      texts := new string[MAX_COMBOBOX_STRINGS](_ => "");
    }

    /** CB_ADDSTRING: append a copy of s and make it the title, while there is room. */
    method AddString(s: string) returns (ok: bool)
      requires Valid()
      modifies win`cursorPos, win`title, texts
      ensures Valid()
      ensures ok <==> old(win.cursorPos) < MAX_COMBOBOX_STRINGS
      ensures ok ==> Entries() == old(Entries()) + [TitleCopy(s)] && win.title == TitleCopy(s)
      ensures !ok ==> Entries() == old(Entries()) && win.title == old(win.title)
    {
      if win.cursorPos < MAX_COMBOBOX_STRINGS {
        texts[win.cursorPos] := TitleCopy(s);
        win.cursorPos := win.cursorPos + 1;
        win.title := TitleCopy(s);
        return true;
      }
      return false;
    }

    /** CB_GETLBTEXT: the text of entry i, for i below the count. */
    method GetLbText(i: U32) returns (t: Option<string>)
      requires Valid()
      ensures t.Some? <==> i < |Entries()|
      ensures t.Some? ==> t.value == Entries()[i]
    {
      if i < win.cursorPos {
        return Some(texts[i]);
      }
      return None;
    }

    /** CB_SETCURSEL: make entry i the title, for i below the count. */
    method SetCurSel(i: U32) returns (ok: bool)
      requires Valid()
      modifies win`title
      ensures Valid() && Entries() == old(Entries())
      ensures ok <==> i < |Entries()|
      ensures ok ==> win.title == Entries()[i]
      ensures !ok ==> win.title == old(win.title)
    {
      if i < win.cursorPos {
        win.title := TitleCopy(texts[i]);
        return true;
      }
      return false;
    }

    /** CB_GETCURSEL: the first entry equal to the title over 64 bytes, or CB_ERR. */
    method GetCurSel() returns (r: int)
      requires Valid()
      ensures r == FirstMatch(Entries(), win.title)
    {
      ghost var es := Entries();
      var i := 0;
      while i < win.cursorPos
        invariant 0 <= i <= win.cursorPos
        invariant forall j | 0 <= j < i :: !SameText(es[j], win.title)
      {
        if TitleCopy(texts[i]) == TitleCopy(win.title) {
          FirstAt(es, win.title, i);
          return i;
        }
        i := i + 1;
      }
      return CB_ERR;
    }

    /**
     * WM_LBUTTONUP: the button release (BN_CLICKED to the root), then a
     * drop-down list under the combobox, placed relative to the root's
     * frame, 100 high, which is sent LIST_SELITEM 2 and takes the capture.
     */
    method Click(w: U32, root: Rect, tw: int) returns (r: int, fx: seq<Effect>)
      modifies win`pressed, win`frame
      ensures r == 1 && !win.pressed && win.frame == old(win.frame)
      ensures fx == [Notify(Clicked(win.id)), Invalidate,
        DropDown(Rect(root.x + win.frame.x, root.y + win.frame.y + win.frame.h + 2, win.frame.w, DROP_HEIGHT))]
    {
      var _, bfx := Button.ButtonProc(win, Input(WM_LBUTTONUP, w), tw);
      var rect := Rect(root.x + win.frame.x, root.y + win.frame.y + win.frame.h + 2, win.frame.w, DROP_HEIGHT);
      return 1, bfx + [DropDown(rect)];
    }

    /**
     * The `default` arm: every message the combobox does not handle goes
     * to `win_button`. A press sets `pressed`, and Return or Space act as
     * a press on key down and a release on key up; a key release notifies
     * the root with BN_CLICKED but opens no drop-down list.
     */
    method Default(m: Input, tw: int) returns (r: int, fx: seq<Effect>)
      requires Valid()
      requires m.msg !in {WM_CREATE, WM_DESTROY, WM_PAINT, WM_LBUTTONUP, CB_ADDSTRING, CB_GETLBTEXT, CB_SETCURSEL, CB_GETCURSEL}
      modifies win`pressed, win`frame
      ensures Valid() && Entries() == old(Entries()) && win.title == old(win.title) && win.frame == old(win.frame)
      ensures var x := Button.React(old(win.pressed), win.id, m);
        r == x.result && win.pressed == x.pressed && fx == x.effects
    {
      r, fx := Button.ButtonProc(win, m, tw);
    }
  }
}
