/**
 * commctl/list.c: the drop-down list a combobox opens. Its `userdata` is
 * the combobox; its own `cursor_pos` is the highlighted row. Pressing on
 * a row copies that entry into the combobox title; releasing tells the
 * combobox's root CBN_SELCHANGE and closes the list.
 */
module DropList {
  import opened Words
  import opened Messages
  import opened User
  import opened Control
  import opened ComboBox

  const LIST_HEIGHT: int := 13
  const LIST_SELITEM: int := 0x5001

  /** `MAKEDWORD(cb->id, CBN_SELCHANGE)` */
  function SelChange(id: int): U32 {
    MakeDword(id, CBN_SELCHANGE)
  }

  class ListBox {
    const win: Win
    const combo: Combo

    /** WM_CREATE: `userdata` is the combobox passed as lparam. */
    constructor (win: Win, combo: Combo)
      ensures this.win == win && this.combo == combo
    {
      this.win := win;
      this.combo := combo;
    }

    /** LIST_SELITEM: the row is taken as given, without a range check. */
    method SelItem(w: U32) returns (r: int)
      modifies win`cursorPos
      ensures win.cursorPos == w && r == 1
    {
      win.cursorPos := w;
      return 1;
    }

    /**
     * WM_LBUTTONDOWN: the row under the pointer (y / 13) is highlighted and,
     * when it holds an entry, copied into the combobox title.
     */
    method Press(w: U32) returns (r: int, fx: seq<Effect>)
      requires combo.Valid() && win != combo.win
      modifies win`cursorPos, combo.win`title
      ensures combo.Valid() && combo.Entries() == old(combo.Entries())
      ensures win.cursorPos == HiWord(w) / LIST_HEIGHT
      ensures win.cursorPos < |combo.Entries()| ==> combo.win.title == combo.Entries()[win.cursorPos]
      ensures win.cursorPos >= |combo.Entries()| ==> combo.win.title == old(combo.win.title)
      ensures r == 1 && fx == [Invalidate]
    {
      win.cursorPos := HiWord(w) / LIST_HEIGHT;
      if win.cursorPos < combo.win.cursorPos {
        combo.win.title := TitleCopy(combo.texts[win.cursorPos]);
      }
      return 1, [Invalidate];
    }

    /** WM_LBUTTONUP: CBN_SELCHANGE to the combobox's root, then the list closes. */
    method Release() returns (r: int, fx: seq<Effect>)
      ensures r == 1 && fx == [OwnerNotify(SelChange(combo.win.id)), DestroySelf]
      ensures LoWord(SelChange(combo.win.id)) == ToU16(combo.win.id) && HiWord(SelChange(combo.win.id)) == CBN_SELCHANGE
    {
      return 1, [OwnerNotify(SelChange(combo.win.id)), DestroySelf];
    }
  }

  /**
   * A press on a row holding an entry makes the combobox read that row
   * (or an earlier one with the same text) back as its selection.
   */
  lemma PressSelects(es: seq<string>, w: U32)
    requires HiWord(w) / LIST_HEIGHT < |es|
    ensures var i := HiWord(w) / LIST_HEIGHT;
      0 <= FirstMatch(es, es[i]) <= i && SameText(es[FirstMatch(es, es[i])], es[i])
  {
    SelectionFound(es, HiWord(w) / LIST_HEIGHT);
  }
}
