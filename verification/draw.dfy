/**
 * The arithmetic of user/draw_impl.c: title-bar height, the stencil
 * rectangle each window paints its id into, the order in which the
 * stencil is repainted (and hence which id owns a screen point), and the
 * glyph codes the icon helpers draw. The GL calls themselves are not
 * modelled; the stencil buffer is described by the id it holds at a point.
 */
module Draw {
  import opened Messages
  import opened User

  /** `titlebar_height`: 12 for a title bar unless WINDOW_NOTITLE, plus 20 for WINDOW_TOOLBAR. */
  function TitlebarHeight(flags: Flags): (t: int)
    ensures t == 0 || t == TITLEBAR_HEIGHT || t == TOOLBAR_HEIGHT || t == TITLEBAR_HEIGHT + TOOLBAR_HEIGHT
    ensures (t == TITLEBAR_HEIGHT || t == TITLEBAR_HEIGHT + TOOLBAR_HEIGHT) <==> !Has(flags, WINDOW_NOTITLE)
    ensures t >= TOOLBAR_HEIGHT <==> Has(flags, WINDOW_TOOLBAR)
  {
    (if Has(flags, WINDOW_NOTITLE) then 0 else TITLEBAR_HEIGHT)
      + (if Has(flags, WINDOW_TOOLBAR) then TOOLBAR_HEIGHT else 0)
  }

  /** The rectangle `paint_window_stencil` fills with the window id. */
  function StencilRect(w: Window): (r: Rect)
    ensures forall x, y :: Contains(x, y, r) <==>
      && w.frame.x - 1 <= x < w.frame.x + w.frame.w + 1
      && w.frame.y - TitlebarHeight(w.flags) - 1 <= y < w.frame.y + w.frame.h + 1
  {
    var t := TitlebarHeight(w.flags);
    Rect(w.frame.x - 1, w.frame.y - t - 1, w.frame.w + 2, w.frame.h + t + 2)
  }

  /** The stencil rectangle covers the frame and the title and tool bars above it. */
  lemma StencilCoversWindow(w: Window, x: int, y: int)
    requires w.frame.x <= x < w.frame.x + w.frame.w
    requires w.frame.y - TitlebarHeight(w.flags) <= y < w.frame.y + w.frame.h
    ensures Contains(x, y, StencilRect(w))
  {
  }

  /**
   * A window that writes its id at (x, y): it is visible, its procedure
   * leaves WM_PAINTSTENCIL to `send_message` (`answer(w)` is what the
   * procedure returns for it), and the stencil rectangle holds the point.
   */
  predicate Paints(w: Window, x: int, y: int, answer: Window -> int) {
    w.visible && answer(w) == 0 && Contains(x, y, StencilRect(w))
  }

  /**
   * The stencil value at (x, y) after ws are sent WM_PAINTSTENCIL in
   * order, starting from `acc`: each window that paints the point
   * replaces the value with its id. A procedure that answers the message
   * itself is taken to leave the value alone.
   */
  function Repaint(ws: seq<Window>, x: int, y: int, acc: int, answer: Window -> int): (r: int)
    ensures r == acc || exists i :: 0 <= i < |ws| && r == ws[i].id
  {
    if ws == [] then acc
    else
      var acc' := if Paints(ws[0], x, y, answer) then ws[0].id else acc;
      Repaint(ws[1..], x, y, acc', answer)
  }

  /**
   * `repaint_stencil`: the buffer is cleared to 0, then the visible
   * top-level windows are sent WM_PAINTSTENCIL in list order.
   */
  function StencilAt(ws: seq<Window>, x: int, y: int, answer: Window -> int): (r: int)
  {
    Repaint(ws, x, y, 0, answer)
  }

  /**
   * The stencil at a point belongs to the last window in list order that
   * paints it, and is 0 where no window paints.
   */
  lemma {:induction false} RepaintIsLastPainter(ws: seq<Window>, x: int, y: int, acc: int, answer: Window -> int)
    ensures (forall i | 0 <= i < |ws| :: !Paints(ws[i], x, y, answer)) ==> Repaint(ws, x, y, acc, answer) == acc
    ensures forall i | 0 <= i < |ws| && Paints(ws[i], x, y, answer) && (forall j | i < j < |ws| :: !Paints(ws[j], x, y, answer)) ::
      Repaint(ws, x, y, acc, answer) == ws[i].id
  {
    if ws != [] {
      var acc' := if Paints(ws[0], x, y, answer) then ws[0].id else acc;
      RepaintIsLastPainter(ws[1..], x, y, acc', answer);
      forall i | 0 <= i < |ws| && Paints(ws[i], x, y, answer) && (forall j | i < j < |ws| :: !Paints(ws[j], x, y, answer))
        ensures Repaint(ws, x, y, acc, answer) == ws[i].id
      {
        if i > 0 {
          assert ws[1..][i - 1] == ws[i];
          forall j | i - 1 < j < |ws| - 1 ensures !Paints(ws[1..][j], x, y, answer) {
            assert ws[1..][j] == ws[j + 1];
          }
        } else {
          forall j | 0 <= j < |ws| - 1 ensures !Paints(ws[1..][j], x, y, answer) {
            assert ws[1..][j] == ws[j + 1];
          }
        }
      }
      if forall i | 0 <= i < |ws| :: !Paints(ws[i], x, y, answer) {
        forall j | 0 <= j < |ws| - 1 ensures !Paints(ws[1..][j], x, y, answer) {
          assert ws[1..][j] == ws[j + 1];
        }
      }
    }
  }

  /** Painting the windows in two runs is painting them in one. */
  lemma {:induction false} RepaintAppend(a: seq<Window>, b: seq<Window>, x: int, y: int, acc: int, answer: Window -> int)
    ensures Repaint(a + b, x, y, acc, answer) == Repaint(b, x, y, Repaint(a, x, y, acc, answer), answer)
  {
    if a == [] {
      assert a + b == b;
    } else {
      assert (a + b)[0] == a[0];
      assert (a + b)[1..] == a[1..] + b;
      var acc' := if Paints(a[0], x, y, answer) then a[0].id else acc;
      RepaintAppend(a[1..], b, x, y, acc', answer);
    }
  }

  /** Raising a window that paints a point to the end of the list gives it that point. */
  lemma RaisedWindowOwnsItsArea(ws: seq<Window>, w: Window, x: int, y: int, answer: Window -> int)
    requires Paints(w, x, y, answer)
    ensures StencilAt(ws + [w], x, y, answer) == w.id
  {
    RepaintAppend(ws, [w], x, y, 0, answer);
  }

  /**
   * A last window whose procedure answers WM_PAINTSTENCIL itself takes no
   * point: the stencil is what the windows before it left.
   */
  lemma {:induction false} HandledStencilPaintsNothing(ws: seq<Window>, w: Window, x: int, y: int, answer: Window -> int)
    requires answer(w) != 0
    ensures StencilAt(ws + [w], x, y, answer) == StencilAt(ws, x, y, answer)
  {
    RepaintAppend(ws, [w], x, y, 0, answer);
  }

  /** A glyph code: the `char` the icon helpers build, read back as an unsigned byte. */
  function Byte(v: int): (b: nat)
    ensures b < 256 && b == v % 256
    ensures 0 <= v < 256 ==> b == v
    ensures -256 <= v < 0 ==> b == v + 256
  {
    v % 256
  }

  /** `draw_icon8`: the one glyph of the 8-pixel icon i, from the row at 128 + 6*16 = 224. */
  function Icon8Glyphs(i: int): (s: seq<nat>)
    ensures |s| == 1 && s[0] < 256
    ensures -224 <= i < 32 ==> s[0] == i + 224
  {
    [Byte(i + 128 + 6 * 16)]
  }

  /** The newline `draw_text_small` moves down a line at. */
  const NEWLINE: nat := 10

  /**
   * `draw_icon16`: the 2x2 block of glyphs of the 16-pixel icon i, the top
   * pair from row 128 and the bottom pair 16 codes further on.
   */
  function Icon16Glyphs(i: int): (s: seq<nat>)
    ensures |s| == 5 && s[2] == NEWLINE
    ensures forall k | 0 <= k < 5 :: s[k] < 256
    ensures 0 <= i < 56 ==> s == [2 * i + 128, 2 * i + 129, NEWLINE, 2 * i + 144, 2 * i + 145]
  {
    var c := 2 * i;
    [Byte(c + 128), Byte(c + 129), NEWLINE, Byte(c + 144), Byte(c + 145)]
  }

  /**
   * Icons 0..7 of the 16-pixel set and 0..31 of the 8-pixel set all draw
   * glyphs of the upper half of the atlas, and no two icons share a glyph.
   */
  lemma IconGlyphsDistinct(i: int, j: int)
    requires 0 <= i < 8 && 0 <= j < 32
    ensures forall k | 0 <= k < 5 && k != 2 :: 128 <= Icon16Glyphs(i)[k] < 160
    ensures 224 <= Icon8Glyphs(j)[0] && Icon8Glyphs(j)[0] == 224 + j
    ensures forall i' | 0 <= i' < 8 && i' != i ::
      forall k, k' | 0 <= k < 5 && 0 <= k' < 5 && k != 2 && k' != 2 :: Icon16Glyphs(i)[k] != Icon16Glyphs(i')[k']
  {
  }
}
