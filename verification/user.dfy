/**
 * The records of user/user.h: rectangles, toolbar buttons, window
 * definitions and the window record itself. A window is addressed by a
 * handle into the desktop's arena; its `next` link is replaced by its
 * position in the sibling list that holds it.
 */
module User {
  import opened Wrappers
  import opened Words
  import opened Messages

  /** A window pointer. */
  type Handle = nat

  /**
   * `(window_t*)1`: the non-null dummy target that `destroy_window`
   * posts WM_REFRESHSTENCIL to. No window ever has this handle.
   */
  const STENCIL_TARGET: Handle := 0

  const SCREEN_WIDTH: int := 1440
  const SCREEN_HEIGHT: int := 960
  /** `sizeof(win->title)` */
  const TITLE_SIZE: int := 64

  // SDL 2 scancodes the controls compare `wparam` with.
  const SCANCODE_RETURN: int := 40
  const SCANCODE_ESCAPE: int := 41
  const SCANCODE_BACKSPACE: int := 42
  const SCANCODE_SPACE: int := 44
  const SCANCODE_RIGHT: int := 79
  const SCANCODE_LEFT: int := 80

  datatype Rect = Rect(x: int, y: int, w: int, h: int)

  /** The CONTAINS macro: (x1, y1) inclusive, far edges exclusive. */
  predicate Contains(x: int, y: int, r: Rect) {
    r.x <= x && r.y <= y && r.x + r.w > x && r.y + r.h > y
  }

  datatype ToolbarButton = ToolbarButton(icon: int, ident: int, active: bool)

  /** The window procedures of the toolkit, plus any application procedure. */
  datatype Proc =
    | ButtonProc | CheckboxProc | ComboboxProc | TextEditProc | LabelProc | ListProc
    | ColumnViewProc | ConsoleProc | SpaceProc | TrayProc | TerminalProc | AppProc(tag: nat)

  /** `windef_t`; a definition whose `proc` is None ends a definition array. */
  datatype WinDef = WinDef(proc: Option<Proc>, text: string, id: int, w: int, h: int, flags: Flags)

  /** `window_t`, with `next` replaced by list position and `userdata` kept by each control. */
  datatype Window = Window(
    frame: Rect,
    id: int,
    scrollX: U16,
    scrollY: U16,
    flags: Flags,
    proc: Proc,
    childId: int,
    hovered: bool,
    editing: bool,
    notabstop: bool,
    pressed: bool,
    value: bool,
    visible: bool,
    disabled: bool,
    title: string,
    cursorPos: int,
    toolbar: seq<ToolbarButton>,
    parent: Option<Handle>,
    children: seq<Handle>)

  /** `strncpy(dst, src, 64)` into a 64-byte title: at most 64 characters are kept. */
  function TitleCopy(s: string): (r: string)
    ensures |r| <= TITLE_SIZE && |r| <= |s| && r == s[..|r|]
    ensures |s| <= TITLE_SIZE ==> r == s
  {
    if |s| <= TITLE_SIZE then s else s[..TITLE_SIZE]
  }

  /** The zero-filled record `create_window` starts from, before its id is chosen. */
  function NewWindow(title: string, flags: Flags, frame: Rect, parent: Option<Handle>, proc: Proc): (w: Window)
    ensures w.frame == frame && w.flags == flags && w.proc == proc && w.parent == parent
    ensures w.title == TitleCopy(title) && w.children == [] && w.toolbar == []
    ensures !w.visible && !w.disabled && !w.notabstop && !w.editing && w.scrollX == 0 && w.scrollY == 0
  {
    Window(frame, 0, 0, 0, flags, proc, 0, false, false, false, false, false, false, false,
           TitleCopy(title), 0, [], parent, [])
  }
}
