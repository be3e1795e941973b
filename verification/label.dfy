/**
 * commctl/label.c: a static text. At creation it widens itself to its
 * text and marks itself `notabstop`, which keeps it out of tab traversal
 * (Tree.TabStop) and out of the default hit-test.
 */
module Label {
  import opened Words
  import opened Messages
  import opened User
  import opened Control

  /** `win_label`; `tw` is `strwidth(win->title)`. */
  method LabelProc(win: Win, m: Input, tw: int) returns (r: int)
    modifies win`frame, win`notabstop
    ensures r == 1 <==> m.msg == WM_CREATE || m.msg == WM_PAINT
    ensures r == 0 || r == 1
    ensures m.msg == WM_CREATE ==> win.notabstop && win.frame == old(win.frame).(w := Max(old(win.frame).w, tw))
    ensures m.msg == WM_CREATE ==> win.frame.w >= tw && win.frame.w >= old(win.frame).w
    ensures m.msg != WM_CREATE ==> win.notabstop == old(win.notabstop) && win.frame == old(win.frame)
  {
    if m.msg == WM_CREATE {
      win.frame := win.frame.(w := Max(win.frame.w, tw));
      win.notabstop := true;
      return 1;
    } else if m.msg == WM_PAINT {
      return 1;
    }
    return 0;
  }
}
