/**
 * The value-level rules of user/window.c, kernel/event.c and the default
 * branches of `send_message` in user/message.c: the repaint messages a
 * window change posts, the global-list edits, top-level id choice, the
 * wheel and toolbar defaults and the child layout of
 * `load_window_children`. The desktop class applies them to its state.
 */
module Windows {
  import opened Wrappers
  import opened Words
  import opened Messages
  import opened User
  import opened Tree
  import opened Queue
  import opened Draw

  /** A posted message with no parameters. */
  function Note(h: Handle, kind: int): (m: Msg)
    ensures m.target == Some(h) && m.kind == kind && m.wparam == 0 && m.lparam.None?
  {
    Msg(Some(h), kind, 0, None)
  }

  /**
   * `invalidate_window`: a top-level window gets WM_NCPAINT and then
   * WM_PAINT; a child gets WM_PAINT only.
   */
  function Inval(wins: Arena, h: Handle): (ms: seq<Msg>)
    requires h in wins
    ensures 1 <= |ms| <= 2 && ms[|ms| - 1] == Note(h, WM_PAINT)
    ensures forall m | m in ms :: m.target == Some(h) && (m.kind == WM_PAINT || m.kind == WM_NCPAINT)
    ensures Note(h, WM_NCPAINT) in ms <==> wins[h].parent.None?
  {
    (if wins[h].parent.None? then [Note(h, WM_NCPAINT)] else []) + [Note(h, WM_PAINT)]
  }

  /**
   * `invalidate_overlaps`: the invalidations of every window of ts, in
   * order, other than h, that overlaps h.
   */
  function OverlapInvals(wins: Arena, ts: seq<Handle>, h: Handle): (ms: seq<Msg>)
    requires h in wins && forall t | t in ts :: t in wins
    ensures forall m | m in ms ::
      && m.target.Some? && m.target.value in ts && m.target.value != h
      && Overlap(wins[m.target.value], wins[h])
      && (m.kind == WM_PAINT || m.kind == WM_NCPAINT)
    ensures forall t | t in ts && t != h && Overlap(wins[t], wins[h]) :: Note(t, WM_PAINT) in ms
  {
    if ts == [] then []
    else
      var first := if ts[0] != h && Overlap(wins[ts[0]], wins[h]) then Inval(wins, ts[0]) else [];
      assert forall t | t in ts[1..] :: t in wins;
      first + OverlapInvals(wins, ts[1..], h)
  }

  /** The invalidations of one more window of the list. */
  lemma {:induction false} OverlapInvalsSnoc(wins: Arena, ts: seq<Handle>, t: Handle, h: Handle)
    requires h in wins && t in wins && forall u | u in ts :: u in wins
    ensures OverlapInvals(wins, ts + [t], h) ==
      OverlapInvals(wins, ts, h) + (if t != h && Overlap(wins[t], wins[h]) then Inval(wins, t) else [])
  {
    if ts == [] {
      assert [t][1..] == [];
    } else {
      assert (ts + [t])[0] == ts[0];
      assert (ts + [t])[1..] == ts[1..] + [t];
      OverlapInvalsSnoc(wins, ts[1..], t, h);
    }
  }

  /**
   * The messages `set_focus` posts when the focus moves from `from` to
   * `to`: WM_KILLFOCUS (naming the new window) and an invalidation for the
   * old one, then WM_SETFOCUS (naming the old window) and an invalidation
   * for the new one.
   */
  function FocusPosts(wins: Arena, from: Option<Handle>, to: Option<Handle>): (ms: seq<Msg>)
    requires from.Some? ==> from.value in wins
    requires to.Some? ==> to.value in wins
    ensures Msg(from, WM_KILLFOCUS, 0, to) in ms <==> from.Some?
    ensures Msg(to, WM_SETFOCUS, 0, from) in ms <==> to.Some?
    ensures forall m | m in ms :: m.target.Some? && (m.target == from || m.target == to)
    ensures from.Some? && to.Some? ==> ms == [Msg(from, WM_KILLFOCUS, 0, to)] + Inval(wins, from.value) + [Msg(to, WM_SETFOCUS, 0, from)] + Inval(wins, to.value)
  {
    (if from.Some? then [Msg(from, WM_KILLFOCUS, 0, to)] + Inval(wins, from.value) else [])
      + (if to.Some? then [Msg(to, WM_SETFOCUS, 0, from)] + Inval(wins, to.value) else [])
  }

  /** The messages `move_window` and `resize_window` post, in order. */
  function GeometryPosts(wins: Arena, top: seq<Handle>, h: Handle): (ms: seq<Msg>)
    requires h in wins && forall t | t in top :: t in wins
    ensures |ms| >= 3 && ms[0] == Note(h, WM_RESIZE) && ms[1] == Note(h, WM_REFRESHSTENCIL)
    ensures ms[|ms| - 1] == Note(h, WM_PAINT)
    ensures forall m | m in ms[2..] :: m.kind == WM_PAINT || m.kind == WM_NCPAINT
  {
    var ms := [Note(h, WM_RESIZE), Note(h, WM_REFRESHSTENCIL)] + OverlapInvals(wins, top, h) + Inval(wins, h);
    assert ms[2..] == OverlapInvals(wins, top, h) + Inval(wins, h);
    ms
  }

  // ---------------------------------------------------------------------
  // The global list
  // ---------------------------------------------------------------------

  /** s without the first occurrence of x. */
  function RemoveFirst(s: seq<Handle>, x: Handle): (r: seq<Handle>)
    ensures x !in s ==> r == s
    ensures x in s ==> |r| == |s| - 1 && multiset(r) + multiset{x} == multiset(s)
    ensures forall y | y in r :: y in s
  {
    if s == [] then []
    else if s[0] == x then assert s == [s[0]] + s[1..]; s[1..]
    else
      var r := [s[0]] + RemoveFirst(s[1..], x);
      assert s == [s[0]] + s[1..];
      r
  }

  /** Without duplicates, the first occurrence is the only one. */
  lemma {:induction false} RemoveFirstNoDup(s: seq<Handle>, x: Handle)
    requires NoDup(s)
    ensures x !in RemoveFirst(s, x) && NoDup(RemoveFirst(s, x))
    ensures forall y | y in s && y != x :: y in RemoveFirst(s, x)
  {
    if s != [] && s[0] != x {
      assert NoDup(s[1..]) by {
        forall i, j | 0 <= i < j < |s| - 1 ensures s[1..][i] != s[1..][j] {
          assert s[1..][i] == s[i + 1] && s[1..][j] == s[j + 1];
        }
      }
      RemoveFirstNoDup(s[1..], x);
      var t := RemoveFirst(s[1..], x);
      assert s[0] !in s[1..] by {
        forall k | 0 <= k < |s| - 1 ensures s[1..][k] != s[0] {
          assert s[1..][k] == s[k + 1];
        }
      }
      forall i, j | 0 <= i < j < |t| + 1 ensures ([s[0]] + t)[i] != ([s[0]] + t)[j] {
        if i == 0 {
          assert ([s[0]] + t)[j] == t[j - 1];
          assert t[j - 1] in t;
        } else {
          assert ([s[0]] + t)[i] == t[i - 1] && ([s[0]] + t)[j] == t[j - 1];
        }
      }
    } else if s != [] {
      assert NoDup(s[1..]) by {
        forall i, j | 0 <= i < j < |s| - 1 ensures s[1..][i] != s[1..][j] {
          assert s[1..][i] == s[i + 1] && s[1..][j] == s[j + 1];
        }
      }
      forall k | 0 <= k < |s| - 1 ensures s[1..][k] != x {
        assert s[1..][k] == s[k + 1];
      }
    }
  }

  /**
   * `remove_from_global_list` as written: None where it dereferences the
   * NULL head, which happens whenever the list is empty.
   */
  function RemoveFromGlobalListAsWritten(top: seq<Handle>, h: Handle): (r: Option<seq<Handle>>)
    ensures r.None? <==> top == []
    ensures r.Some? ==> r.value == RemoveFirst(top, h)
  {
    if top == [] then None
    else if top[0] == h then Some(top[1..])
    else Some([top[0]] + RemoveFirst(top[1..], h))
  }

  /**
   * Destroying the only top-level window w empties the list before its
   * children are destroyed, so destroying its child c reads the NULL head.
   */
  lemma DestroyLastTopLevelCrashes(w: Handle, c: Handle)
    requires w != c
    ensures RemoveFromGlobalListAsWritten([w], w) == Some([])
    ensures RemoveFromGlobalListAsWritten([], c).None?
  {
  }

  /** `remove_from_global_list` as evidently intended: an absent window leaves the list alone. */
  function RemoveFromGlobalList(top: seq<Handle>, h: Handle): (r: seq<Handle>)
    ensures RemoveFromGlobalListAsWritten(top, h).Some? ==> r == RemoveFromGlobalListAsWritten(top, h).value
    ensures h !in top ==> r == top
    ensures NoDup(top) ==> h !in r && NoDup(r) && forall y | y in top && y != h :: y in r
  {
    if NoDup(top) then RemoveFirstNoDup(top, h); RemoveFirst(top, h) else RemoveFirst(top, h)
  }

  /**
   * `move_to_top` on the list: a root in the list and without
   * WINDOW_ALWAYSINBACK moves to the end; otherwise nothing moves.
   */
  function Raise(top: seq<Handle>, r: Handle, flags: Flags): (t: seq<Handle>)
  {
    if Has(flags, WINDOW_ALWAYSINBACK) || r !in top then top else RemoveFirst(top, r) + [r]
  }

  /** The raised window is last, the set of windows is the same and the others keep their order. */
  lemma RaiseProperties(top: seq<Handle>, r: Handle, flags: Flags)
    requires NoDup(top)
    ensures var t := Raise(top, r, flags);
      && multiset(t) == multiset(top)
      && RemoveFirst(t, r) == RemoveFirst(top, r)
      && NoDup(t)
      && (r in top && !Has(flags, WINDOW_ALWAYSINBACK) ==> t[|t| - 1] == r)
      && (r !in top || Has(flags, WINDOW_ALWAYSINBACK) ==> t == top)
  {
    if r in top && !Has(flags, WINDOW_ALWAYSINBACK) {
      var rest := RemoveFirst(top, r);
      RemoveFirstNoDup(top, r);
      RemoveFirstOfAppend(rest, r);
      forall i, j | 0 <= i < j < |rest| + 1 ensures (rest + [r])[i] != (rest + [r])[j] {
        if j == |rest| {
          assert (rest + [r])[i] == rest[i];
        } else {
          assert (rest + [r])[i] == rest[i] && (rest + [r])[j] == rest[j];
        }
      }
    }
  }

  /** Removing the first x is cutting it out where the scan finds it. */
  lemma {:induction false} RemoveFirstAt(s: seq<Handle>, i: nat, x: Handle)
    requires i < |s| && s[i] == x && x !in s[..i]
    ensures RemoveFirst(s, x) == s[..i] + s[i + 1..]
  {
    if i > 0 {
      assert s[1..][..i - 1] == s[1..i];
      assert x !in s[1..][..i - 1];
      RemoveFirstAt(s[1..], i - 1, x);
      assert s[..i] == [s[0]] + s[1..][..i - 1];
      assert s[i + 1..] == s[1..][i..];
    }
  }

  lemma {:induction false} RemoveFirstOfAppend(s: seq<Handle>, x: Handle)
    requires x !in s
    ensures RemoveFirst(s + [x], x) == s
  {
    if s != [] {
      assert (s + [x])[0] == s[0];
      assert (s + [x])[1..] == s[1..] + [x];
      RemoveFirstOfAppend(s[1..], x);
    }
  }

  // ---------------------------------------------------------------------
  // Top-level ids
  // ---------------------------------------------------------------------

  /** The ids of the windows in ts. */
  function Ids(wins: Arena, ts: seq<Handle>): (r: set<int>)
    requires forall t | t in ts :: t in wins
    ensures forall t | t in ts :: wins[t].id in r
    ensures forall i | i in r :: exists t | t in ts :: wins[t].id == i
  {
    set t | t in ts :: wins[t].id
  }

  /**
   * The id the scan over `used[1..255]` settles on: the highest of 1..n
   * not used, or 0 when they all are.
   */
  function HighestFree(used: set<int>, n: nat): (r: nat)
    ensures r <= n
    ensures r == 0 <==> forall i | 1 <= i <= n :: i in used
    ensures r != 0 ==> r !in used && forall i | r < i <= n :: i in used
  {
    if n == 0 then 0
    else if n !in used then n
    else HighestFree(used, n - 1)
  }

  /** With any id of 1..255 unused the choice is a fresh id; it is the lowest only if no higher one is free. */
  lemma HighestFreeIsFresh(used: set<int>, i: int)
    requires 1 <= i <= 255 && i !in used
    ensures var r := HighestFree(used, 255); 1 <= r <= 255 && r !in used && r >= i
  {
  }

  // ---------------------------------------------------------------------
  // Defaults of `send_message`
  // ---------------------------------------------------------------------

  /** The vertical default of WM_WHEEL: `MAX(0, scroll - (int16)HIWORD)`, stored in 16 bits. */
  function VScroll(s: U16, hi: U16): (r: U16)
    ensures 0 <= s - ToI16(hi) < TwoTo16 ==> r == s - ToI16(hi)
    ensures s - ToI16(hi) < 0 ==> r == 0
  {
    ToU16(Max(0, s - ToI16(hi)))
  }

  /** The horizontal default of WM_WHEEL as written: `MIN(0, scroll + (int16)LOWORD)`, stored in 16 bits. */
  function HScrollAsWritten(s: U16, lo: U16): (r: U16)
    ensures s + ToI16(lo) >= 0 ==> r == 0
    ensures s + ToI16(lo) < 0 ==> r == s + ToI16(lo) + TwoTo16
  {
    ToU16(Min(0, s + ToI16(lo)))
  }

  /**
   * As written, a wheel step to the right never moves the view, and from
   * offset 0 a step of 5 to the left lands on 65531; a second step of 5 to
   * the left goes back to 0.
   */
  lemma HScrollAsWrittenResets()
    ensures forall s: U16, lo: U16 | ToI16(lo) >= 0 :: HScrollAsWritten(s, lo) == 0
    ensures HScrollAsWritten(0, ToU16(-5)) == 65531
    ensures HScrollAsWritten(65531, ToU16(-5)) == 0
  {
  }

  /**
   * The horizontal default as evidently intended, clamped like the
   * vertical one: `MAX(0, scroll + (int16)LOWORD)`.
   */
  function HScroll(s: U16, lo: U16): (r: U16)
    ensures 0 <= s + ToI16(lo) < TwoTo16 ==> r == s + ToI16(lo)
    ensures s + ToI16(lo) < 0 ==> r == 0
  {
    ToU16(Max(0, s + ToI16(lo)))
  }

  /** Corrected, steps that stay in range accumulate and a step back undoes a step. */
  lemma HScrollAccumulates(s: U16, a: int, b: int)
    requires -0x8000 < a < 0x8000 && -0x8000 <= b < 0x8000
    requires 0 <= s + a < TwoTo16 && 0 <= s + a + b < TwoTo16
    ensures HScroll(HScroll(s, ToU16(a)), ToU16(b)) == s + a + b
    ensures HScroll(HScroll(s, ToU16(a)), ToU16(-a)) == s
  {
    assert ToI16(ToU16(a)) == a;
    assert ToI16(ToU16(b)) == b;
    assert ToI16(ToU16(-a)) == -a;
  }

  /** The window after the WM_WHEEL default: only the axes whose scroll flag is set move. */
  function Wheel(w: Window, wparam: U32): (r: Window)
    ensures r == w.(scrollX := r.scrollX, scrollY := r.scrollY)
    ensures !Has(w.flags, WINDOW_HSCROLL) ==> r.scrollX == w.scrollX
    ensures !Has(w.flags, WINDOW_VSCROLL) ==> r.scrollY == w.scrollY
    ensures Has(w.flags, WINDOW_HSCROLL) ==> r.scrollX == HScroll(w.scrollX, LoWord(wparam))
    ensures Has(w.flags, WINDOW_VSCROLL) ==> r.scrollY == VScroll(w.scrollY, HiWord(wparam))
  {
    var w1 := if Has(w.flags, WINDOW_HSCROLL) then w.(scrollX := HScroll(w.scrollX, LoWord(wparam))) else w;
    if Has(w.flags, WINDOW_VSCROLL) then w1.(scrollY := VScroll(w.scrollY, HiWord(wparam))) else w1
  }

  /** The 16-pixel square of toolbar button i of a window whose frame is f. */
  function ToolbarButtonRect(f: Rect, i: nat): (r: Rect)
    ensures r.w == 16 && r.h == 16 && r.y == f.y - TOOLBAR_HEIGHT + 2
    ensures r.x == f.x + 2 + i * TB_SPACING
  {
    Rect(f.x + 2 + i * TB_SPACING, f.y - TOOLBAR_HEIGHT + 2, 16, 16)
  }

  /**
   * The default WM_NCLBUTTONUP on a toolbar window: the idents of the
   * buttons, from index i on, whose square holds (x, y); each is sent
   * TB_BUTTONCLICK.
   */
  function ToolbarClicks(f: Rect, bs: seq<ToolbarButton>, i: nat, x: int, y: int): (r: seq<int>)
    ensures |r| + i <= |bs| || r == []
    ensures forall k | 0 <= k < |bs| && i <= k && Contains(x, y, ToolbarButtonRect(f, k)) :: bs[k].ident in r
    ensures forall v | v in r :: exists k | i <= k < |bs| :: bs[k].ident == v && Contains(x, y, ToolbarButtonRect(f, k))
    decreases |bs| - i
  {
    if i >= |bs| then []
    else (if Contains(x, y, ToolbarButtonRect(f, i)) then [bs[i].ident] else []) + ToolbarClicks(f, bs, i + 1, x, y)
  }

  /** The squares are 18 pixels apart and 16 wide, so a click hits at most one button. */
  lemma {:induction false} ToolbarClickAtMostOne(f: Rect, bs: seq<ToolbarButton>, i: nat, x: int, y: int)
    ensures |ToolbarClicks(f, bs, i, x, y)| <= 1
    ensures forall k | i <= k < |bs| && x < f.x + 2 + k * TB_SPACING :: |ToolbarClicks(f, bs, k, x, y)| == 0
    decreases |bs| - i
  {
    if i < |bs| {
      ToolbarClickAtMostOne(f, bs, i + 1, x, y);
      if Contains(x, y, ToolbarButtonRect(f, i)) {
        assert x < f.x + 2 + (i + 1) * TB_SPACING;
      }
    }
  }

  // ---------------------------------------------------------------------
  // load_window_children
  // ---------------------------------------------------------------------

  /** The largest bottom edge among the frames of kids, and at least `low`. */
  function Bottom(wins: Arena, kids: seq<Handle>, low: int): (b: int)
    requires forall c | c in kids :: c in wins
    ensures b >= low
    ensures forall c | c in kids :: b >= wins[c].frame.y + wins[c].frame.h
  {
    if kids == [] then low
    else
      assert forall c | c in kids[1..] :: c in wins;
      Max(wins[kids[0]].frame.y + wins[kids[0]].frame.h, Bottom(wins, kids[1..], low))
  }

  /** One more child: the bottom edge grows to cover it. */
  lemma {:induction false} BottomSnoc(wins: Arena, kids: seq<Handle>, c: Handle, low: int)
    requires forall k | k in kids :: k in wins
    requires c in wins
    ensures Bottom(wins, kids + [c], low) == Max(Bottom(wins, kids, low), wins[c].frame.y + wins[c].frame.h)
  {
    if kids == [] {
      assert [c][1..] == [];
    } else {
      assert (kids + [c])[0] == kids[0];
      assert (kids + [c])[1..] == kids[1..] + [c];
      BottomSnoc(wins, kids[1..], c, low);
    }
  }

  /** Starting the scan from a higher value is taking the larger of the two. */
  lemma {:induction false} BottomFrom(wins: Arena, kids: seq<Handle>, low: int, y: int)
    requires forall k | k in kids :: k in wins
    requires low <= y
    ensures Bottom(wins, kids, y) == Max(y, Bottom(wins, kids, low))
  {
    if kids != [] {
      BottomFrom(wins, kids[1..], low, y);
    }
  }

  /** The bottom edge only reads the frames of kids. */
  lemma {:induction false} BottomFrames(wins: Arena, wins': Arena, kids: seq<Handle>, low: int)
    requires forall k | k in kids :: k in wins && k in wins' && wins'[k].frame == wins[k].frame
    ensures Bottom(wins', kids, low) == Bottom(wins, kids, low)
  {
    if kids != [] {
      BottomFrames(wins, wins', kids[1..], low);
    }
  }

  /** The frames of the windows hs, in order. */
  ghost function Frames(wins: Arena, hs: seq<Handle>): seq<Rect>
    requires forall c | c in hs :: c in wins
  {
    if hs == [] then []
    else
      assert forall c | c in hs[..|hs| - 1] :: c in hs;
      Frames(wins, hs[..|hs| - 1]) + [wins[hs[|hs| - 1]].frame]
  }

  /** One more window adds its frame at the end. */
  lemma FramesSnoc(wins: Arena, hs: seq<Handle>, c: Handle)
    requires forall k | k in hs :: k in wins
    requires c in wins
    ensures Frames(wins, hs + [c]) == Frames(wins, hs) + [wins[c].frame]
  {
    assert (hs + [c])[..|hs|] == hs;
  }

  /** The frames only read the windows hs. */
  lemma {:induction false} FramesKeep(wins: Arena, wins': Arena, hs: seq<Handle>)
    requires forall k | k in hs :: k in wins && k in wins' && wins'[k].frame == wins[k].frame
    ensures Frames(wins', hs) == Frames(wins, hs)
  {
    if hs != [] {
      assert forall c | c in hs[..|hs| - 1] :: c in hs;
      FramesKeep(wins, wins', hs[..|hs| - 1]);
    }
  }

  /** The width a definition asks for: -1 means the client width less the padding. */
  function DefWidth(d: WinDef, fw: int): int {
    if d.w == -1 then fw - WINDOW_PADDING * 2 else d.w
  }

  /** The height a definition asks for: 0 means CONTROL_HEIGHT. */
  function DefHeight(d: WinDef): int {
    if d.h == 0 then CONTROL_HEIGHT else d.h
  }

  /** The definitions `load_window_children` creates: all before the terminator, except spaces. */
  function Created(defs: seq<WinDef>): (r: seq<WinDef>)
    ensures |r| <= |defs|
    ensures forall d | d in r :: d in defs && d.proc.Some? && d.proc != Some(SpaceProc)
  {
    if defs == [] || defs[0].proc.None? then []
    else if defs[0].proc == Some(SpaceProc) then Created(defs[1..])
    else [defs[0]] + Created(defs[1..])
  }

  /**
   * The frames `load_window_children` gives the windows it creates, with
   * the cursor at (x, y), `bottom` the lowest child edge so far and fw the
   * parent's width. A definition that does not fit, and every space,
   * starts a new line below all the children.
   */
  function Layout(defs: seq<WinDef>, fw: int, x: int, y: int, bottom: int): (r: seq<Rect>)
    decreases |defs|
  {
    if defs == [] || defs[0].proc.None? then []
    else
      var d := defs[0];
      var w := DefWidth(d, fw);
      var h := DefHeight(d);
      var space := d.proc == Some(SpaceProc);
      var wrap := x + w > fw - WINDOW_PADDING || space;
      var x1 := if wrap then WINDOW_PADDING else x;
      var y1 := if wrap then Max(y, bottom) + LINE_PADDING else y;
      if space then Layout(defs[1..], fw, x1, y1, bottom)
      else [Rect(x1, y1, w, h)] + Layout(defs[1..], fw, x1 + w + LINE_PADDING, y1, Max(bottom, y1 + h))
  }

  /** Where `load_window_children` puts the next control: on this line, or at the start of a new one. */
  function LineStart(d: WinDef, fw: int, x: int, y: int, bottom: int): (p: (int, int))
    ensures p == (x, y) || p == (WINDOW_PADDING, Max(y, bottom) + LINE_PADDING)
    ensures p.0 == x && p.1 == y ==> d.proc != Some(SpaceProc) || x == WINDOW_PADDING
  {
    if x + DefWidth(d, fw) > fw - WINDOW_PADDING || d.proc == Some(SpaceProc) then
      (WINDOW_PADDING, Max(y, bottom) + LINE_PADDING)
    else (x, y)
  }

  /** A control that is not a space is placed at its line start and the rest follow it. */
  lemma LayoutPlaced(defs: seq<WinDef>, fw: int, x: int, y: int, bottom: int)
    requires defs != [] && defs[0].proc.Some? && defs[0].proc != Some(SpaceProc)
    ensures var p := LineStart(defs[0], fw, x, y, bottom);
      var w := DefWidth(defs[0], fw);
      var h := DefHeight(defs[0]);
      Layout(defs, fw, x, y, bottom) ==
        [Rect(p.0, p.1, w, h)] + Layout(defs[1..], fw, p.0 + w + LINE_PADDING, p.1, Max(bottom, p.1 + h))
  {
  }

  /** A space only moves the layout to the start of a new line. */
  lemma LayoutSkipped(defs: seq<WinDef>, fw: int, x: int, y: int, bottom: int)
    requires defs != [] && defs[0].proc == Some(SpaceProc)
    ensures Layout(defs, fw, x, y, bottom) == Layout(defs[1..], fw, WINDOW_PADDING, Max(y, bottom) + LINE_PADDING, bottom)
  {
  }

  /**
   * One step of `load_window_children` keeps "frames made so far, then the
   * layout of the remaining definitions" equal to the whole layout.
   */
  lemma LayoutAdvance(defs: seq<WinDef>, i: nat, fw: int, x: int, y: int, bottom: int, before: seq<Rect>,
                      x1: int, y1: int, w: int, h: int, next: int)
    requires i < |defs| && defs[i].proc.Some? && defs[i].proc != Some(SpaceProc)
    requires (x1, y1) == LineStart(defs[i], fw, x, y, bottom)
    requires w == DefWidth(defs[i], fw) && h == DefHeight(defs[i]) && next == x1 + w + LINE_PADDING
    ensures before + Layout(defs[i..], fw, x, y, bottom) ==
      (before + [Rect(x1, y1, w, h)]) + Layout(defs[i + 1..], fw, next, y1, Max(bottom, y1 + h))
  {
    assert defs[i..][0] == defs[i] && defs[i..][1..] == defs[i + 1..];
    LayoutPlaced(defs[i..], fw, x, y, bottom);
  }

  /** The same step for a space, which only moves to the next line. */
  lemma LayoutAdvanceSpace(defs: seq<WinDef>, i: nat, fw: int, x: int, y: int, bottom: int, before: seq<Rect>,
                           x1: int, y1: int)
    requires i < |defs| && defs[i].proc == Some(SpaceProc)
    requires (x1, y1) == LineStart(defs[i], fw, x, y, bottom)
    ensures before + Layout(defs[i..], fw, x, y, bottom) == before + Layout(defs[i + 1..], fw, x1, y1, bottom)
  {
    assert defs[i..][0] == defs[i] && defs[i..][1..] == defs[i + 1..];
    LayoutSkipped(defs[i..], fw, x, y, bottom);
  }

  /**
   * Adding child c with frame r to an arena that keeps every other frame
   * appends r to the frames made so far and lowers the bottom edge to r's.
   */
  lemma FramesGrow(wins: Arena, wins': Arena, kids: seq<Handle>, made: seq<Handle>, c: Handle, r: Rect)
    requires forall k | k in kids || k in made :: k in wins && k in wins' && wins'[k].frame == wins[k].frame
    requires c in wins' && wins'[c].frame == r
    ensures Frames(wins', made + [c]) == Frames(wins, made) + [r]
    ensures Bottom(wins', kids + [c], WINDOW_PADDING) == Max(Bottom(wins, kids, WINDOW_PADDING), r.y + r.h)
  {
    BottomFrames(wins, wins', kids, WINDOW_PADDING);
    BottomSnoc(wins', kids, c, WINDOW_PADDING);
    FramesKeep(wins, wins', made);
    FramesSnoc(wins', made, c);
  }

  /** `FramesGrow` for the arena `create_window2` leaves: a new child c, its parent p with the same frame. */
  lemma FramesAfterCreate(wins: Arena, wins': Arena, p: Handle, c: Handle, nw: Window, pw: Window,
                          kids: seq<Handle>, made: seq<Handle>)
    requires forall k | k in kids || k in made :: k in wins
    requires p in wins && c !in wins && pw.frame == wins[p].frame
    requires wins' == wins[c := nw][p := pw]
    ensures Frames(wins', made + [c]) == Frames(wins, made) + [nw.frame]
    ensures Bottom(wins', kids + [c], WINDOW_PADDING) == Max(Bottom(wins, kids, WINDOW_PADDING), nw.frame.y + nw.frame.h)
  {
    FramesGrow(wins, wins', kids, made, c, nw.frame);
  }

  /** Frame k has the width and height definition k asks for, for every k. */
  predicate SizesMatch(r: seq<Rect>, c: seq<WinDef>, fw: int) {
    |r| == |c| && forall k | 0 <= k < |r| :: r[k].w == DefWidth(c[k], fw) && r[k].h == DefHeight(c[k])
  }

  /** Each created control gets the size its definition asks for. */
  lemma {:induction false} LayoutSizes(defs: seq<WinDef>, fw: int, x: int, y: int, bottom: int)
    ensures SizesMatch(Layout(defs, fw, x, y, bottom), Created(defs), fw)
    decreases |defs|
  {
    if defs == [] || defs[0].proc.None? {
    } else {
      var d := defs[0];
      var w := DefWidth(d, fw);
      var h := DefHeight(d);
      var space := d.proc == Some(SpaceProc);
      var wrap := x + w > fw - WINDOW_PADDING || space;
      var x1 := if wrap then WINDOW_PADDING else x;
      var y1 := if wrap then Max(y, bottom) + LINE_PADDING else y;
      if space {
        LayoutSizes(defs[1..], fw, x1, y1, bottom);
      } else {
        var b' := Max(bottom, y1 + h);
        LayoutSizes(defs[1..], fw, x1 + w + LINE_PADDING, y1, b');
        SizesCons(Rect(x1, y1, w, h), d, Layout(defs[1..], fw, x1 + w + LINE_PADDING, y1, b'), Created(defs[1..]), fw);
      }
    }
  }

  /** Prefixing a frame of the right size and its definition keeps the sizes matched. */
  lemma SizesCons(f: Rect, d: WinDef, rest: seq<Rect>, c: seq<WinDef>, fw: int)
    requires SizesMatch(rest, c, fw) && f.w == DefWidth(d, fw) && f.h == DefHeight(d)
    ensures SizesMatch([f] + rest, [d] + c, fw)
  {
    forall k | 1 <= k < |rest| + 1
      ensures ([f] + rest)[k].w == DefWidth(([d] + c)[k], fw) && ([f] + rest)[k].h == DefHeight(([d] + c)[k])
    {
      assert ([f] + rest)[k] == rest[k - 1] && ([d] + c)[k] == c[k - 1];
    }
  }

  /** Where the first control goes: on the current line, or on a new line below every child. */
  predicate StartsAt(r: seq<Rect>, fw: int, x: int, y: int, bottom: int) {
    |r| > 0 ==>
      || (r[0].x == x && r[0].y == y && x + r[0].w <= fw - WINDOW_PADDING)
      || (r[0].x == WINDOW_PADDING && r[0].y >= Max(y, bottom) + LINE_PADDING)
  }

  /** Control k continues the line of control k - 1, or starts a new line below it. */
  predicate Follows(r: seq<Rect>, k: int)
    requires 0 < k < |r|
  {
    || (r[k].y == r[k - 1].y && r[k].x == r[k - 1].x + r[k - 1].w + LINE_PADDING)
    || (r[k].x == WINDOW_PADDING && r[k].y >= r[k - 1].y + r[k - 1].h + LINE_PADDING)
  }

  /** Only a control at the start of a line may pass the right padding. */
  predicate Fits(r: Rect, fw: int) {
    r.x == WINDOW_PADDING || r.x + r.w <= fw - WINDOW_PADDING
  }

  /**
   * Each control either continues the line of the one before it, 5 pixels
   * to its right, or starts a new line at the left padding, below every
   * child so far; only a control alone at the start of a line may pass the
   * right padding.
   */
  lemma {:induction false} LayoutGeometry(defs: seq<WinDef>, fw: int, x: int, y: int, bottom: int)
    ensures var r := Layout(defs, fw, x, y, bottom);
      && StartsAt(r, fw, x, y, bottom)
      && (forall k | 0 < k < |r| :: Follows(r, k))
      && (forall k | 0 <= k < |r| :: Fits(r[k], fw))
    decreases |defs|
  {
    if defs == [] || defs[0].proc.None? {
    } else {
      var d := defs[0];
      var w := DefWidth(d, fw);
      var h := DefHeight(d);
      var space := d.proc == Some(SpaceProc);
      var wrap := x + w > fw - WINDOW_PADDING || space;
      var x1 := if wrap then WINDOW_PADDING else x;
      var y1 := if wrap then Max(y, bottom) + LINE_PADDING else y;
      if space {
        LayoutGeometry(defs[1..], fw, x1, y1, bottom);
        assert Layout(defs, fw, x, y, bottom) == Layout(defs[1..], fw, x1, y1, bottom);
      } else {
        var b' := Max(bottom, y1 + h);
        LayoutGeometry(defs[1..], fw, x1 + w + LINE_PADDING, y1, b');
        var rest := Layout(defs[1..], fw, x1 + w + LINE_PADDING, y1, b');
        var r := [Rect(x1, y1, w, h)] + rest;
        assert Layout(defs, fw, x, y, bottom) == r;
        assert StartsAt(r, fw, x, y, bottom);
        assert Fits(r[0], fw);
        forall k | 1 < k < |r| ensures Follows(r, k) && Fits(r[k], fw) {
          assert r[k] == rest[k - 1] && r[k - 1] == rest[k - 2];
          assert Follows(rest, k - 1);
        }
        if |r| > 1 {
          assert r[1] == rest[0];
          assert Follows(r, 1);
          assert Fits(rest[0], fw);
        }
      }
    }
  }

  /**
   * The frames `load_window_children` produces as written: the line
   * breaks are decided with the computed size, but `create_window2` builds
   * the frame from the definition's own `w` and `h`, and the cursor then
   * advances by that width.
   */
  function LayoutAsWritten(defs: seq<WinDef>, fw: int, x: int, y: int, bottom: int): (r: seq<Rect>)
    ensures |r| <= |defs|
    decreases |defs|
  {
    if defs == [] || defs[0].proc.None? then []
    else
      var d := defs[0];
      var w := DefWidth(d, fw);
      var space := d.proc == Some(SpaceProc);
      var wrap := x + w > fw - WINDOW_PADDING || space;
      var x1 := if wrap then WINDOW_PADDING else x;
      var y1 := if wrap then Max(y, bottom) + LINE_PADDING else y;
      if space then LayoutAsWritten(defs[1..], fw, x1, y1, bottom)
      else [Rect(x1, y1, d.w, d.h)] + LayoutAsWritten(defs[1..], fw, x1 + d.w + LINE_PADDING, y1, Max(bottom, y1 + d.h))
  }

  /**
   * A full-width control (w = -1, h = 0) in a 100-pixel window: the line
   * test reserves 92 pixels for it, yet it is created -1 pixels wide and 0
   * high, where the computed size is 92 by CONTROL_HEIGHT.
   */
  lemma LayoutAsWrittenDropsSize()
    ensures var d := WinDef(Some(ButtonProc), "", 1, -1, 0, 0);
      && LayoutAsWritten([d], 100, WINDOW_PADDING, WINDOW_PADDING, WINDOW_PADDING) == [Rect(4, 4, -1, 0)]
      && Layout([d], 100, WINDOW_PADDING, WINDOW_PADDING, WINDOW_PADDING) == [Rect(4, 4, 92, 10)]
  {
    var d := WinDef(Some(ButtonProc), "", 1, -1, 0, 0);
    assert [d][1..] == [];
  }
}
