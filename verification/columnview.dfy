/**
 * commctl/columnview.c: a multi-column list of up to 256 items. The view
 * keeps its items in a fixed array with a count, a selection (-1 for
 * none), a column width and the memory of the last click, which turns a
 * second click on the same item within 500 ms into a double-click.
 * `SDL_GetTicks` is passed in as `now`.
 */
module ColumnView {
  import opened Wrappers
  import opened Words
  import opened Messages
  import opened User
  import opened Control

  const CVM_ADDITEM: int := WM_USER + 100
  const CVM_DELETEITEM: int := WM_USER + 101
  const CVM_GETITEMCOUNT: int := WM_USER + 102
  const CVM_GETSELECTION: int := WM_USER + 103
  const CVM_SETSELECTION: int := WM_USER + 104
  const CVM_CLEAR: int := WM_USER + 105
  const CVM_SETCOLUMNWIDTH: int := WM_USER + 106
  const CVM_GETCOLUMNWIDTH: int := WM_USER + 107
  const CVM_GETITEMDATA: int := WM_USER + 108
  const CVM_SETITEMDATA: int := WM_USER + 109

  const CVN_SELCHANGE: int := 200
  const CVN_DBLCLK: int := 201

  const MAX_COLUMNVIEW_ITEMS: int := 256
  const ENTRY_HEIGHT: int := 13
  const DEFAULT_COLUMN_WIDTH: int := 160
  const WIN_PADDING: int := 4
  /** `sizeof(columnview_item_t.text)` */
  const ITEM_TEXT_SIZE: int := 256
  const DOUBLE_CLICK_MS: int := 500

  /** `columnview_item_t`; `userdata` is an opaque pointer value. */
  datatype Item = Item(text: string, icon: int, color: U32, userdata: nat)

  /** The copy the view keeps: at most 255 characters of text, so the NUL fits. */
  function Stored(it: Item): (s: Item)
    ensures |s.text| < ITEM_TEXT_SIZE && |s.text| <= |it.text| && s.text == it.text[..|s.text|]
    ensures |it.text| < ITEM_TEXT_SIZE ==> s == it
    ensures |it.text| >= ITEM_TEXT_SIZE ==> |s.text| == ITEM_TEXT_SIZE - 1
    ensures s.icon == it.icon && s.color == it.color && s.userdata == it.userdata
  {
    if |it.text| < ITEM_TEXT_SIZE then it else it.(text := it.text[..ITEM_TEXT_SIZE - 1])
  }

  /** `get_column_count`: how many columns fit, never fewer than one. */
  function ColumnCount(windowWidth: int, columnWidth: int): (n: int)
    ensures n >= 1
    ensures windowWidth > 0 && columnWidth > 0 && windowWidth / columnWidth >= 1 ==> n == windowWidth / columnWidth
    ensures n == 1 || (windowWidth > 0 && columnWidth > 0 && n == windowWidth / columnWidth)
  {
    if windowWidth <= 0 || columnWidth <= 0 then 1
    else
      var ncol := windowWidth / columnWidth;
      if ncol > 0 then ncol else 1
  }

  /** The item index under the pointer (mx, my): row * ncol + col, with C's division. */
  function ClickIndex(mx: int, my: int, windowWidth: int, columnWidth: int): int
    requires columnWidth > 0
  {
    CDiv(my - WIN_PADDING, ENTRY_HEIGHT) * ColumnCount(windowWidth, columnWidth) + CDiv(mx, columnWidth)
  }

  /** What a click reads and writes: the selection and the last click's time and index. */
  datatype Memory = Memory(selected: int, lastTime: U32, lastIndex: int)

  datatype Clicked = Clicked(memory: Memory, effects: seq<Effect>)

  /** `now - last_click_time` in `uint32_t` arithmetic. */
  function Elapsed(now: U32, last: U32): U32 {
    (now - last) % TwoTo32
  }

  /** The WM_LBUTTONDOWN branch for the item `index` of `count`. */
  function ClickStep(m: Memory, index: int, count: int, now: U32, id: int): (c: Clicked)
  {
    if !(0 <= index < count) then Clicked(m, [])
    else if m.lastIndex == index && Elapsed(now, m.lastTime) < DOUBLE_CLICK_MS then
      Clicked(Memory(m.selected, 0, -1), [NotifyIndex(MakeDword(id, CVN_DBLCLK), index)])
    else
      Clicked(Memory(index, now, index),
        (if m.selected != index then [NotifyIndex(MakeDword(id, CVN_SELCHANGE), index)] else []) + [Invalidate])
  }

  /** A click keeps the selection a valid item or -1. */
  lemma ClickKeepsSelection(m: Memory, index: int, count: int, now: U32, id: int)
    requires -1 <= m.selected < count
    ensures -1 <= ClickStep(m, index, count, now, id).memory.selected < count
  {
  }

  /**
   * A single click on an item followed within 500 ms by another on the
   * same item is a double-click: CVN_DBLCLK, the selection kept and the
   * click memory reset. A third click is a single click again, and as the
   * item is already selected it only repaints.
   */
  lemma DoubleClick(m: Memory, index: int, count: int, t1: U32, t2: U32, t3: U32, id: int)
    requires 0 <= index < count
    requires !(m.lastIndex == index && Elapsed(t1, m.lastTime) < DOUBLE_CLICK_MS)
    requires Elapsed(t2, t1) < DOUBLE_CLICK_MS
    ensures var a := ClickStep(m, index, count, t1, id);
      a.memory == Memory(index, t1, index) &&
      var b := ClickStep(a.memory, index, count, t2, id);
      b == Clicked(Memory(index, 0, -1), [NotifyIndex(MakeDword(id, CVN_DBLCLK), index)]) &&
      ClickStep(b.memory, index, count, t3, id) == Clicked(Memory(index, t3, index), [Invalidate])
  {
  }

  /** A click outside the items changes nothing; a click on another item is never a double-click. */
  lemma ClickElsewhere(m: Memory, index: int, count: int, now: U32, id: int)
    ensures !(0 <= index < count) ==> ClickStep(m, index, count, now, id) == Clicked(m, [])
    ensures 0 <= index < count && m.lastIndex != index ==>
      ClickStep(m, index, count, now, id).memory == Memory(index, now, index) &&
      NotifyIndex(MakeDword(id, CVN_DBLCLK), index) !in ClickStep(m, index, count, now, id).effects
  {
  }

  /** Deleting the item just added gives back the items there were. */
  lemma DeleteAdded(es: seq<Item>, x: Item)
    ensures (es + [x])[..|es|] + (es + [x])[|es| + 1..] == es
  {
    assert (es + [x])[..|es|] == es;
  }

  /** `columnview_data_t` and the window it belongs to. */
  class View {
    const win: Win
    const items: array<Item>
    var count: int
    var selected: int
    var columnWidth: int
    var lastClickTime: U32
    var lastClickIndex: int

    ghost predicate Valid()
      reads this, items
    {
      && items.Length == MAX_COLUMNVIEW_ITEMS
      && 0 <= count <= MAX_COLUMNVIEW_ITEMS
      && -1 <= selected < count
      && columnWidth > 0
      && forall i | 0 <= i < count :: |items[i].text| < ITEM_TEXT_SIZE
    }

    /** The items in order. */
    ghost function Entries(): (es: seq<Item>)
      reads this, items
      requires Valid()
      ensures |es| == count
    {
      items[..count]
    }

    /** WM_CREATE: an empty view with nothing selected and the default column width. */
    constructor (win: Win)
      ensures Valid() && this.win == win && fresh(items)
      ensures Entries() == [] && selected == -1 && columnWidth == DEFAULT_COLUMN_WIDTH
      ensures lastClickTime == 0 && lastClickIndex == -1
    {
      this.win := win;
      items := new Item[MAX_COLUMNVIEW_ITEMS](_ => Item("", 0, 0, 0));
      count, selected, columnWidth := 0, -1, DEFAULT_COLUMN_WIDTH;
      lastClickTime, lastClickIndex := 0, -1;
    }

    /** CVM_ADDITEM: append a stored copy of the item and return its index, or -1. */
    method AddItem(item: Option<Item>) returns (r: int, fx: seq<Effect>)
      requires Valid()
      modifies this`count, items
      ensures Valid()
      ensures item.Some? && old(count) < MAX_COLUMNVIEW_ITEMS ==>
        r == old(count) && Entries() == old(Entries()) + [Stored(item.value)] && fx == [Invalidate]
      ensures item.None? || old(count) == MAX_COLUMNVIEW_ITEMS ==>
        r == -1 && Entries() == old(Entries()) && fx == []
    {
      if count < MAX_COLUMNVIEW_ITEMS && item.Some? {
        items[count] := Stored(item.value);
        count := count + 1;
        return count - 1, [Invalidate];
      }
      return -1, [];
    }

    /**
     * CVM_DELETEITEM: remove item `(int)w`, shifting the later ones down,
     * and keep the selection on the same item (or none if it was deleted).
     */
    method DeleteItem(w: U32) returns (ok: bool, fx: seq<Effect>)
      requires Valid()
      modifies this`count, this`selected, items
      ensures Valid()
      ensures ok <==> 0 <= ToI32(w) < old(count)
      ensures ok ==>
        var i := ToI32(w);
        && Entries() == old(Entries())[..i] + old(Entries())[i + 1..]
        && selected == (if old(selected) == i then -1 else if old(selected) > i then old(selected) - 1 else old(selected))
        && fx == [Invalidate]
      ensures !ok ==> Entries() == old(Entries()) && selected == old(selected) && fx == []
    {
      var index := ToI32(w);
      if !(0 <= index < count) {
        return false, [];
      }
      ghost var es := items[..count];
      var i := index;
      while i < count - 1
        invariant index <= i <= count - 1 && count == |es| && items.Length == MAX_COLUMNVIEW_ITEMS
        invariant selected == old(selected)
        invariant forall k | 0 <= k < index :: items[k] == es[k]
        invariant forall k | index <= k < i :: items[k] == es[k + 1]
        invariant forall k | i < k < count :: items[k] == es[k]
      {
        items[i] := items[i + 1];
        i := i + 1;
      }
      count := count - 1;
      if selected == index {
        selected := -1;
      } else if selected > index {
        selected := selected - 1;
      }
      assert items[..count] == es[..index] + es[index + 1..] by {
        forall k | 0 <= k < count ensures items[..count][k] == (es[..index] + es[index + 1..])[k] {
          if k < index {
          } else {
            assert (es[..index] + es[index + 1..])[k] == es[k + 1];
          }
        }
      }
      return true, [Invalidate];
    }

    /** CVM_GETITEMCOUNT */
    method GetItemCount() returns (r: int)
      requires Valid()
      ensures r == |Entries()|
    {
      return count;
    }

    /** CVM_GETSELECTION: the selected index, -1 for none. */
    method GetSelection() returns (r: int)
      requires Valid()
      ensures -1 <= r < |Entries()| && r == selected
    {
      return selected;
    }

    /** CVM_SETSELECTION: only -1 (none) or an existing index is taken. */
    method SetSelection(w: U32) returns (ok: bool, fx: seq<Effect>)
      requires Valid()
      modifies this`selected
      ensures Valid()
      ensures ok <==> -1 <= ToI32(w) < count
      ensures ok ==> selected == ToI32(w) && fx == [Invalidate]
      ensures !ok ==> selected == old(selected) && fx == []
    {
      var index := ToI32(w);
      if -1 <= index < count {
        selected := index;
        return true, [Invalidate];
      }
      return false, [];
    }

    /** CVM_CLEAR: no items, no selection, no click memory. */
    method Clear() returns (fx: seq<Effect>)
      requires Valid()
      modifies this`count, this`selected, this`lastClickTime, this`lastClickIndex
      ensures Valid() && Entries() == [] && selected == -1
      ensures lastClickTime == 0 && lastClickIndex == -1 && fx == [Invalidate]
    {
      count, selected, lastClickTime, lastClickIndex := 0, -1, 0, -1;
      return [Invalidate];
    }

    /** CVM_SETCOLUMNWIDTH: only a positive width is taken. */
    method SetColumnWidth(w: U32) returns (ok: bool, fx: seq<Effect>)
      requires Valid()
      modifies this`columnWidth
      ensures Valid()
      ensures ok <==> ToI32(w) > 0
      ensures ok ==> columnWidth == ToI32(w) && fx == [Invalidate]
      ensures !ok ==> columnWidth == old(columnWidth) && fx == []
    {
      var width := ToI32(w);
      if width > 0 {
        columnWidth := width;
        return true, [Invalidate];
      }
      return false, [];
    }

    /** CVM_GETCOLUMNWIDTH */
    method GetColumnWidth() returns (r: int)
      requires Valid()
      ensures r > 0 && r == columnWidth
    {
      return columnWidth;
    }

    /** CVM_GETITEMDATA: a copy of item `(int)w`, when it exists and there is somewhere to put it. */
    method GetItemData(w: U32, hasDest: bool) returns (r: Option<Item>)
      requires Valid()
      ensures r.Some? <==> 0 <= ToI32(w) < |Entries()| && hasDest
      ensures r.Some? ==> r.value == Entries()[ToI32(w)]
    {
      var index := ToI32(w);
      if 0 <= index < count && hasDest {
        return Some(items[index]);
      }
      return None;
    }

    /** CVM_SETITEMDATA: replace item `(int)w` by a stored copy of the given one. */
    method SetItemData(w: U32, item: Option<Item>) returns (ok: bool, fx: seq<Effect>)
      requires Valid()
      modifies items
      ensures Valid()
      ensures ok <==> 0 <= ToI32(w) < count && item.Some?
      ensures ok ==> Entries() == old(Entries())[ToI32(w) := Stored(item.value)] && fx == [Invalidate]
      ensures !ok ==> Entries() == old(Entries()) && fx == []
    {
      var index := ToI32(w);
      if 0 <= index < count && item.Some? {
        items[index] := Stored(item.value);
        return true, [Invalidate];
      }
      return false, [];
    }

    /** WM_LBUTTONDOWN at (LOWORD(w), HIWORD(w)) at time `now`; always handled. */
    method Click(w: U32, now: U32) returns (r: int, fx: seq<Effect>)
      requires Valid()
      modifies this`selected, this`lastClickTime, this`lastClickIndex
      ensures Valid() && r == 1
      ensures ClickStep(Memory(old(selected), old(lastClickTime), old(lastClickIndex)),
                        ClickIndex(LoWord(w), HiWord(w), win.frame.w, columnWidth), count, now, win.id)
        == Clicked(Memory(selected, lastClickTime, lastClickIndex), fx)
    {
      var mx, my := LoWord(w), HiWord(w);
      var ncol := ColumnCount(win.frame.w, columnWidth);
      var col := CDiv(mx, columnWidth);
      var row := CDiv(my - WIN_PADDING, ENTRY_HEIGHT);
      var index := row * ncol + col;
      fx := [];
      if index >= 0 && index < count {
        if lastClickIndex == index && Elapsed(now, lastClickTime) < DOUBLE_CLICK_MS {
          fx := [NotifyIndex(MakeDword(win.id, CVN_DBLCLK), index)];
          lastClickTime := 0;
          lastClickIndex := -1;
        } else {
          var oldSelection := selected;
          selected := index;
          lastClickTime := now;
          lastClickIndex := index;
          if oldSelection != selected {
            fx := [NotifyIndex(MakeDword(win.id, CVN_SELCHANGE), index)];
          }
          fx := fx + [Invalidate];
        }
      }
      r := 1;
    }
  }
}
