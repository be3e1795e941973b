/**
 * The message-kind enumerations, window flag bits and layout constants of
 * user/messages.h. Message kinds are integers; window flags are a 32-bit
 * mask, as in the source.
 */
module Messages {

  // Core window messages, numbered from 0 in declaration order.
  const WM_CREATE: int := 0
  const WM_DESTROY: int := 1
  const WM_SHOWWINDOW: int := 2
  const WM_NCPAINT: int := 3
  const WM_NCLBUTTONUP: int := 4
  const WM_PAINT: int := 5
  const WM_REFRESHSTENCIL: int := 6
  const WM_PAINTSTENCIL: int := 7
  const WM_SETFOCUS: int := 8
  const WM_KILLFOCUS: int := 9
  const WM_HITTEST: int := 10
  const WM_COMMAND: int := 11
  const WM_TEXTINPUT: int := 12
  const WM_WHEEL: int := 13
  const WM_MOUSEMOVE: int := 14
  const WM_MOUSELEAVE: int := 15
  const WM_LBUTTONDOWN: int := 16
  const WM_LBUTTONUP: int := 17
  const WM_RBUTTONDOWN: int := 18
  const WM_RBUTTONUP: int := 19
  const WM_RESIZE: int := 20
  const WM_KEYDOWN: int := 21
  const WM_KEYUP: int := 22
  const WM_JOYBUTTONDOWN: int := 23
  const WM_JOYBUTTONUP: int := 24
  const WM_JOYAXISMOTION: int := 25
  const WM_USER: int := 1000

  /** The core kinds in declaration order; position = value. */
  const CoreKinds: seq<int> := [
    WM_CREATE, WM_DESTROY, WM_SHOWWINDOW, WM_NCPAINT, WM_NCLBUTTONUP, WM_PAINT,
    WM_REFRESHSTENCIL, WM_PAINTSTENCIL, WM_SETFOCUS, WM_KILLFOCUS, WM_HITTEST,
    WM_COMMAND, WM_TEXTINPUT, WM_WHEEL, WM_MOUSEMOVE, WM_MOUSELEAVE,
    WM_LBUTTONDOWN, WM_LBUTTONUP, WM_RBUTTONDOWN, WM_RBUTTONUP, WM_RESIZE,
    WM_KEYDOWN, WM_KEYUP, WM_JOYBUTTONDOWN, WM_JOYBUTTONUP, WM_JOYAXISMOTION]

  // Control messages, numbered from WM_USER.
  const BM_SETCHECK: int := WM_USER
  const BM_GETCHECK: int := WM_USER + 1
  const CB_ADDSTRING: int := WM_USER + 2
  const CB_GETCURSEL: int := WM_USER + 3
  const CB_SETCURSEL: int := WM_USER + 4
  const CB_GETLBTEXT: int := WM_USER + 5
  const ST_ADDWINDOW: int := WM_USER + 6
  const TB_ADDBUTTONS: int := WM_USER + 7
  const TB_BUTTONCLICK: int := WM_USER + 8

  const ControlKinds: seq<int> := [
    BM_SETCHECK, BM_GETCHECK, CB_ADDSTRING, CB_GETCURSEL, CB_SETCURSEL,
    CB_GETLBTEXT, ST_ADDWINDOW, TB_ADDBUTTONS, TB_BUTTONCLICK]

  // Control notification codes.
  const EN_UPDATE: int := 100
  const BN_CLICKED: int := 101
  const CBN_SELCHANGE: int := 102

  const BST_UNCHECKED: int := 0
  const BST_CHECKED: int := 1
  const CB_ERR: int := -1

  // Window flags.
  type Flags = bv32
  const WINDOW_NOTITLE: Flags := 1 << 0
  const WINDOW_TRANSPARENT: Flags := 1 << 1
  const WINDOW_VSCROLL: Flags := 1 << 2
  const WINDOW_HSCROLL: Flags := 1 << 3
  const WINDOW_NORESIZE: Flags := 1 << 4
  const WINDOW_NOFILL: Flags := 1 << 5
  const WINDOW_ALWAYSONTOP: Flags := 1 << 6
  const WINDOW_ALWAYSINBACK: Flags := 1 << 7
  const WINDOW_HIDDEN: Flags := 1 << 8
  const WINDOW_NOTRAYBUTTON: Flags := 1 << 9
  const WINDOW_DIALOG: Flags := 1 << 10
  const WINDOW_TOOLBAR: Flags := 1 << 11

  const AllFlags: seq<Flags> := [
    WINDOW_NOTITLE, WINDOW_TRANSPARENT, WINDOW_VSCROLL, WINDOW_HSCROLL,
    WINDOW_NORESIZE, WINDOW_NOFILL, WINDOW_ALWAYSONTOP, WINDOW_ALWAYSINBACK,
    WINDOW_HIDDEN, WINDOW_NOTRAYBUTTON, WINDOW_DIALOG, WINDOW_TOOLBAR]

  /** `flags & f` is non-zero. */
  predicate Has(flags: Flags, f: Flags) {
    flags & f != 0
  }

  // Layout constants.
  const TITLEBAR_HEIGHT: int := 12
  const TOOLBAR_HEIGHT: int := 20
  const RESIZE_HANDLE: int := 8
  const BUTTON_HEIGHT: int := 13
  const WINDOW_PADDING: int := 4
  const LINE_PADDING: int := 5
  const CONTROL_HEIGHT: int := 10
  const CONTROL_BUTTON_WIDTH: int := 8
  const CONTROL_BUTTON_PADDING: int := 2
  const TB_SPACING: int := 18
  const SCROLL_SENSITIVITY: int := 5

  // Icon numbers of the 8-pixel icon set.
  const icon8_minus: int := 0
  const icon8_collapse: int := 1
  const icon8_maximize: int := 2
  const icon8_dropdown: int := 3
  const icon8_checkbox: int := 4
  const icon8_editor_helmet: int := 5

  /** Flag i is bit i and no two flags share a bit. */
  lemma FlagsAreDistinctBits()
    ensures |AllFlags| == 12
    ensures forall i :: 0 <= i < 12 ==> AllFlags[i] == 1 << i
    ensures forall i, j :: 0 <= i < j < 12 ==> AllFlags[i] & AllFlags[j] == 0
  {
  }

  /** The core kinds run 0..25 in order; control kinds run on from WM_USER. */
  lemma KindNumbering()
    ensures |CoreKinds| == 26 && forall i :: 0 <= i < 26 ==> CoreKinds[i] == i
    ensures |ControlKinds| == 9 && forall i :: 0 <= i < 9 ==> ControlKinds[i] == WM_USER + i
    ensures BM_SETCHECK == 1000 && TB_BUTTONCLICK == 1008
    ensures EN_UPDATE == 100 && BN_CLICKED == 101 && CBN_SELCHANGE == 102
  {
  }
}
