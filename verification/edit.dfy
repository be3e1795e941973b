/**
 * commctl/edit.c: the single-line text field. Its text is the window
 * title (a 64-byte buffer), `cursor_pos` is the caret and `editing` says
 * whether keys edit the text. A click while focused places the caret at
 * the gap nearest the pointer.
 */
module TextEdit {
  import opened Wrappers
  import opened Words
  import opened Messages
  import opened User
  import opened Control
  import opened Text

  const BUFFER_SIZE: int := 64
  const PADDING: int := 3

  /** The state the procedure edits: title, caret and the `editing` flag. */
  datatype Field = Field(title: string, cursor: int, editing: bool)

  /** The caret stays inside the text and the text inside its buffer. */
  predicate Caret(f: Field) {
    0 <= f.cursor <= |f.title| <= TITLE_SIZE
  }

  /** The `memmove` right and the store of `c` at `pos`. */
  function Inserted(s: string, pos: int, c: char): (t: string)
    requires 0 <= pos <= |s|
    ensures |t| == |s| + 1 && t[pos] == c
    ensures t[..pos] == s[..pos] && t[pos + 1..] == s[pos..]
  {
    s[..pos] + [c] + s[pos..]
  }

  /** The `memmove` left over the character before `pos`. */
  function Erased(s: string, pos: int): (t: string)
    requires 0 < pos <= |s|
    ensures |t| == |s| - 1
    ensures t[..pos - 1] == s[..pos - 1] && t[pos - 1..] == s[pos..]
  {
    s[..pos - 1] + s[pos..]
  }

  /** Erasing what was just inserted gives back the text. */
  lemma ErasedInserted(s: string, pos: int, c: char)
    requires 0 <= pos <= |s|
    ensures Erased(Inserted(s, pos, c), pos + 1) == s
  {
    var t := Inserted(s, pos, c);
    assert Erased(t, pos + 1) == t[..pos] + t[pos + 1..];
    assert s == s[..pos] + s[pos..];
  }

  datatype Reply = Reply(result: int, field: Field, effects: seq<Effect>)

  /** `MAKEDWORD(win->id, EN_UPDATE)` */
  function Updated(id: int): U32 {
    MakeDword(id, EN_UPDATE)
  }

  /** The WM_KEYDOWN branch of `win_textedit`. */
  function Key(f: Field, id: int, key: U32): (r: Reply)
    requires Caret(f)
    ensures Caret(r.field)
  {
    if key == SCANCODE_RETURN then
      if !f.editing then Reply(1, f.(cursor := |f.title|, editing := true), [Invalidate])
      else Reply(1, f.(editing := false), [Notify(Updated(id)), Invalidate])
    else if key == SCANCODE_ESCAPE then
      Reply(1, f.(editing := false), [Invalidate])
    else if key == SCANCODE_BACKSPACE then
      var f' := if f.cursor > 0 && f.editing then f.(title := Erased(f.title, f.cursor), cursor := f.cursor - 1) else f;
      Reply(1, f', [Invalidate])
    else if key == SCANCODE_LEFT then
      Reply(1, if f.cursor > 0 && f.editing then f.(cursor := f.cursor - 1) else f, [Invalidate])
    else if key == SCANCODE_RIGHT then
      Reply(1, if f.cursor < |f.title| && f.editing then f.(cursor := f.cursor + 1) else f, [Invalidate])
    else
      Reply(if f.editing then 1 else 0, f, [])
  }

  /**
   * The WM_TEXTINPUT branch: the first byte of `input` goes in at the
   * caret when the text and the input together leave room for the NUL.
   */
  function Typed(f: Field, input: string): (r: Reply)
    requires Caret(f) && input != []
    ensures Caret(r.field) && r.field.editing == f.editing
  {
    if |f.title| + |input| < BUFFER_SIZE - 1 then
      Reply(1, f.(title := Inserted(f.title, f.cursor, input[0]), cursor := f.cursor + 1), [Invalidate])
    else
      Reply(1, f, [Invalidate])
  }

  /** Where the caret would be drawn for the gap before character i. */
  function CaretX(from: seq<int>, to: seq<int>, title: string, x0: int, i: int): int
    requires |from| == 256 && |to| == 256 && Bytes(title) && 0 <= i <= |title| <= TITLE_SIZE
  {
    x0 + PADDING + StrnWidthSpec(from, to, Some(title), i)
  }

  function Abs(v: int): (r: nat)
    ensures r == v || r == -v
  {
    if v < 0 then -v else v
  }

  /** How far the gap before character i is from the pointer. */
  function Dist(from: seq<int>, to: seq<int>, title: string, x0: int, mx: int, i: int): nat
    requires |from| == 256 && |to| == 256 && Bytes(title) && 0 <= i <= |title| <= TITLE_SIZE
  {
    Abs(mx - CaretX(from, to, title, x0, i))
  }

  /** k is the first of the gaps nearest the pointer. */
  predicate Nearest(from: seq<int>, to: seq<int>, title: string, x0: int, mx: int, k: int)
    requires |from| == 256 && |to| == 256 && Bytes(title) && |title| <= TITLE_SIZE
  {
    && 0 <= k <= |title|
    && (forall j | 0 <= j <= |title| :: Dist(from, to, title, x0, mx, k) <= Dist(from, to, title, x0, mx, j))
    && (forall j | 0 <= j < k :: Dist(from, to, title, x0, mx, j) > Dist(from, to, title, x0, mx, k))
  }

  /** A click has one caret position: the nearest gap is unique. */
  lemma NearestUnique(from: seq<int>, to: seq<int>, title: string, x0: int, mx: int, k: int, k': int)
    requires |from| == 256 && |to| == 256 && Bytes(title) && |title| <= TITLE_SIZE
    requires Nearest(from, to, title, x0, mx, k) && Nearest(from, to, title, x0, mx, k')
    ensures k == k'
  {
    assert Dist(from, to, title, x0, mx, k) == Dist(from, to, title, x0, mx, k');
  }

  /** The caret scan of WM_LBUTTONUP over the gaps 0..strlen(title). */
  method PlaceCaret(win: Win, atlas: FontAtlas, mx: int)
    requires atlas.Valid() && Bytes(win.title) && |win.title| <= TITLE_SIZE
    modifies win`cursorPos
    ensures Nearest(atlas.charFrom[..], atlas.charTo[..], win.title, win.frame.x, mx, win.cursorPos)
  {
    ghost var from, to := atlas.charFrom[..], atlas.charTo[..];
    var title, x0 := win.title, win.frame.x;
    var k := 0;
    var i := 0;
    while i <= |title|
      invariant 0 <= i <= |title| + 1
      invariant 0 <= k <= |title| && k <= i
      invariant forall j | 0 <= j < i :: Dist(from, to, title, x0, mx, k) <= Dist(from, to, title, x0, mx, j)
      invariant forall j | 0 <= j < k :: Dist(from, to, title, x0, mx, j) > Dist(from, to, title, x0, mx, k)
    {
      var w1 := atlas.StrnWidth(Some(title), i);
      var w2 := atlas.StrnWidth(Some(title), k);
      var x1 := x0 + PADDING + w1;
      var x2 := x0 + PADDING + w2;
      if Abs(mx - x1) < Abs(mx - x2) {
        k := i;
      }
      i := i + 1;
    }
    win.cursorPos := k;
  }

  /**
   * `win_textedit`; `tw` is `strwidth(win->title)`, `focused` tells
   * whether the window holds the focus, and `input` is the text of a
   * WM_TEXTINPUT.
   */
  method EditProc(win: Win, m: Input, input: string, tw: int, focused: bool, atlas: FontAtlas)
    returns (r: int, fx: seq<Effect>)
    requires Caret(Field(win.title, win.cursorPos, win.editing)) && Bytes(win.title) && atlas.Valid()
    requires m.msg == WM_TEXTINPUT ==> input != [] && Bytes(input)
    modifies win`title, win`cursorPos, win`editing, win`frame
    ensures Caret(Field(win.title, win.cursorPos, win.editing)) && Bytes(win.title)
    ensures win.frame == if m.msg == WM_CREATE then Grown(old(win.frame), tw + 2 * PADDING, 13) else old(win.frame)
    ensures m.msg == WM_CREATE || m.msg == WM_PAINT ==>
      r == 1 && fx == [] && win.title == old(win.title) && win.cursorPos == old(win.cursorPos) && win.editing == old(win.editing)
    ensures m.msg == WM_LBUTTONUP ==> r == 1 && win.title == old(win.title)
    ensures m.msg == WM_LBUTTONUP && focused ==>
      && win.editing && fx == [Invalidate]
      && Nearest(atlas.charFrom[..], atlas.charTo[..], win.title, win.frame.x, LoWord(m.wparam), win.cursorPos)
    ensures m.msg == WM_LBUTTONUP && !focused ==> fx == [] && win.cursorPos == old(win.cursorPos) && win.editing == old(win.editing)
    ensures m.msg == WM_TEXTINPUT ==>
      Typed(Field(old(win.title), old(win.cursorPos), old(win.editing)), input) == Reply(r, Field(win.title, win.cursorPos, win.editing), fx)
    ensures m.msg == WM_KEYDOWN ==>
      Key(Field(old(win.title), old(win.cursorPos), old(win.editing)), win.id, m.wparam) == Reply(r, Field(win.title, win.cursorPos, win.editing), fx)
    ensures m.msg !in {WM_CREATE, WM_PAINT, WM_LBUTTONUP, WM_TEXTINPUT, WM_KEYDOWN} ==>
      r == 0 && fx == [] && win.title == old(win.title) && win.cursorPos == old(win.cursorPos) && win.editing == old(win.editing)
  {
    r, fx := 0, [];
    if m.msg == WM_CREATE {
      win.frame := Grown(win.frame, tw + PADDING * 2, 13);
      r := 1;
    } else if m.msg == WM_PAINT {
      r := 1;
    } else if m.msg == WM_LBUTTONUP {
      if focused {
        fx := [Invalidate];
        win.editing := true;
        PlaceCaret(win, atlas, LoWord(m.wparam));
      }
      r := 1;
    } else if m.msg == WM_TEXTINPUT {
      if |win.title| + |input| < BUFFER_SIZE - 1 {
        win.title := Inserted(win.title, win.cursorPos, input[0]);
        win.cursorPos := win.cursorPos + 1;
      }
      r, fx := 1, [Invalidate];
    } else if m.msg == WM_KEYDOWN {
      r, fx := KeyDown(win, m.wparam);
    }
  }

  /** The WM_KEYDOWN arm of `win_textedit`. */
  method KeyDown(win: Win, key: U32) returns (r: int, fx: seq<Effect>)
    requires Caret(Field(win.title, win.cursorPos, win.editing)) && Bytes(win.title)
    modifies win`title, win`cursorPos, win`editing
    ensures Caret(Field(win.title, win.cursorPos, win.editing)) && Bytes(win.title)
    ensures Key(Field(old(win.title), old(win.cursorPos), old(win.editing)), win.id, key) == Reply(r, Field(win.title, win.cursorPos, win.editing), fx)
  {
    fx := [];
    if key == SCANCODE_RETURN {
      if !win.editing {
        win.cursorPos := |win.title|;
        win.editing := true;
      } else {
        fx := [Notify(Updated(win.id))];
        win.editing := false;
      }
    } else if key == SCANCODE_ESCAPE {
      win.editing := false;
    } else if key == SCANCODE_BACKSPACE {
      if win.cursorPos > 0 && win.editing {
        win.title := Erased(win.title, win.cursorPos);
        win.cursorPos := win.cursorPos - 1;
      }
    } else if key == SCANCODE_LEFT {
      if win.cursorPos > 0 && win.editing {
        win.cursorPos := win.cursorPos - 1;
      }
    } else if key == SCANCODE_RIGHT {
      if win.cursorPos < |win.title| && win.editing {
        win.cursorPos := win.cursorPos + 1;
      }
    } else {
      return (if win.editing then 1 else 0), [];
    }
    r, fx := 1, fx + [Invalidate];
  }

  /** Typing a character while editing and then Backspace restore the field. */
  lemma TypeThenErase(f: Field, id: int, c: char)
    requires Caret(f) && f.editing && |f.title| + 1 < BUFFER_SIZE - 1
    ensures Key(Typed(f, [c]).field, id, SCANCODE_BACKSPACE).field == f
  {
    ErasedInserted(f.title, f.cursor, c);
  }

  /** Text input is taken whether or not the field is editing. */
  lemma TypingUngated(f: Field, input: string, e: bool)
    requires Caret(f) && input != []
    ensures Typed(f.(editing := e), input).field.title == Typed(f, input).field.title
    ensures Typed(f.(editing := e), input).field.cursor == Typed(f, input).field.cursor
  {
  }

  /**
   * Return starts editing with the caret at the end; a second Return
   * tells the root EN_UPDATE and stops editing, the text untouched.
   */
  lemma ReturnTwice(f: Field, id: int)
    requires Caret(f) && !f.editing
    ensures var a := Key(f, id, SCANCODE_RETURN);
      a.field == Field(f.title, |f.title|, true) && a.result == 1 &&
      Key(a.field, id, SCANCODE_RETURN) == Reply(1, Field(f.title, |f.title|, false), [Notify(Updated(id)), Invalidate])
  {
  }

  /** Left then Right returns the caret while editing; neither moves it otherwise. */
  lemma LeftRight(f: Field, id: int)
    requires Caret(f)
    ensures f.editing && f.cursor > 0 ==> Key(Key(f, id, SCANCODE_LEFT).field, id, SCANCODE_RIGHT).field == f
    ensures !f.editing ==> Key(f, id, SCANCODE_LEFT).field == f && Key(f, id, SCANCODE_RIGHT).field == f
    ensures !f.editing ==> Key(f, id, SCANCODE_BACKSPACE).field == f
  {
  }

  /** Any key Key does not handle leaves the field alone and answers with `editing`. */
  lemma OtherKeys(f: Field, id: int, key: U32)
    requires Caret(f)
    requires key !in {SCANCODE_RETURN, SCANCODE_ESCAPE, SCANCODE_BACKSPACE, SCANCODE_LEFT, SCANCODE_RIGHT}
    ensures Key(f, id, key) == Reply(if f.editing then 1 else 0, f, [])
  {
  }
}
