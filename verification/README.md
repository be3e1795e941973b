# goldie-ui window and message core, in Dafny

This project models the core of goldie-ui, a small C toolkit that draws
windows with OpenGL and SDL. It covers the parts that keep and change
state.

**Message system** (user/message.c)
- The deferred message queue is a ring of 256 slots with two 8-bit counters (`queue.dfy`).
  - `post_message` coalesces a pending message with the same target and kind.
  - `repost_messages` drains what was pending when it started.
  - `remove_from_global_queue` forgets a window.
- Window hooks are run by `send_message` before a window's procedure (`hooks.dfy`).
- `send_message` applies defaults when a procedure returns 0: wheel scrolling, toolbar buttons, the WM_HITTEST answer, and so on (`windows.dfy`, `desktop.dfy`).

**Window system** (user/window.c, kernel/event.c)
- Windows live in an arena keyed by handle (`tree.dfy`).
  - The global list is the top-level sequence, and each window holds its list of children.
  - Read-only walks: root, tab-stop traversal, hit-testing, `get_window_item`, `is_window`.
- `Desktop.Desktop` is a class holding the window globals (`desktop.dfy`):
  - the arena and the global list;
  - the focused, captured and tracked windows;
  - the queue and the hooks.
- Its methods perform `create_window`, `destroy_window`, `show_window`, `move_window`, `resize_window`, `set_focus`, `set_capture`, `track_mouse`, `enable_window`, `move_to_top`, `find_window` and `load_window_children`.
- `state.dfy` states the desktop invariant every one of those methods keeps. The list edits keep the forest linked. The queue, the hooks and the three exclusive pointers only name live windows.

**Drawing arithmetic** (user/draw_impl.c, user/text.c)
- The title-bar and stencil geometry (`draw.dfy`).
- Glyph measurement and `strnwidth`/`strwidth` (`text.dfy`).

**Common controls** (commctl/)
- Each control is a message procedure over the window fields it reads and writes (`control.dfy`). A procedure's requests to the rest of the toolkit come back as a list of effects.
- The controls:
  - push button and spacer, checkbox, label;
  - single-line edit, combobox and its drop-down list;
  - multi-column list view;
  - command terminal and its growable text buffer;
  - the script terminal of examples/process.h;
  - task bar, on-screen console;
  - the file manager's column view.

**Test event log** (tests/test_env.c)
- Each file carries a doc comment that names its C source.

Integers are unbounded in Dafny. Where the source relies on a fixed width, the model writes the reduction out. Examples: the 8-bit queue counters, the 16-bit halves of message parameters, the `uint16_t` scroll offsets and the 32-bit tick count.

Procedures, the clock and the file system are outside this model. They enter as parameters:
- what a window procedure returns for a message;
- `SDL_GetTicks` as `now`;
- the entries `readdir`/`stat` return;
- how a script resumption ends.

## Model

| member | source | states |
|---|---|---|
| Words.ToU16 | user/user.h:12 | the `uint16_t` cast: the result is in 0..65535 and congruent to the input modulo 2^16 |
| Words.ToI16 | user/message.c:154-157 | reading a 16-bit half as signed: the result is in -32768..32767 and casts back to the same half |
| Words.ToI32 | commctl/columnview.c:199 | reading a 32-bit unsigned parameter as `int`: the result is in the signed range and congruent modulo 2^32 |
| Words.CDiv | commctl/columnview.c:81-82 | C division by a positive divisor truncates toward zero, bounding the quotient from both sides for either sign of the dividend |
| Words.MakeDword | user/user.h:12 | MAKEDWORD: LOWORD of the packed value is the cast low argument and HIWORD the cast high argument |
| Words.PackUnpack | user/user.h:10-12 | LOWORD and HIWORD give back both 16-bit halves that MAKEDWORD packed |
| Words.UnpackPack | user/user.h:10-12 | every 32-bit value is MAKEDWORD of its own LOWORD and HIWORD |
| Words.NegativeWraps | user/user.h:12 | a negative coordinate wraps to 2^16 plus itself and reads back as itself when taken as signed |
| Words.Min | user/user.h:25 | MIN is no larger than either argument and is one of them |
| Words.Max | user/user.h:22 | MAX is no smaller than either argument and is one of them |
| Words.ConcreteWords | tests/basic_test.c:11-45 | the concrete LOWORD/HIWORD/MAKEDWORD/MIN/MAX values the tests check |
| Messages.FlagsAreDistinctBits | user/messages.h:65-76 | window flag i is bit i, so no two flags share a bit |
| Messages.KindNumbering | user/messages.h:5-53 | the core message kinds are numbered 0..25 in declaration order and the control kinds run on from WM_USER = 1000 |
| User.TitleCopy | user/window.c:69 | `strncpy` into the 64-byte title keeps a prefix of at most 64 characters, the whole string when it fits |
| User.NewWindow | user/window.c:54-69 | the zero-filled record `create_window` fills: the given frame, flags, procedure and parent, the copied title, no children, hidden, enabled, not scrolled |
| Text.FirstLit | user/text.c:67-78 | the first lit column of a glyph row scan at or after x, or 0xff exactly when no column from x on is lit |
| Text.LastLitPlus2 | user/text.c:67-78 | the last lit column below x plus 2, or 0 when none is lit; no lit column lies at or past the result minus 2 |
| Text.CharWidth | user/text.c:146-153 | one character's advance: 3 for a space, otherwise `char_to - char_from` truncated to 8 bits, always in 0..255 |
| Text.Measured | user/text.c:140 | the number of characters `strnwidth` measures is capped at MAX_TEXT_LENGTH (256) |
| Text.WidthAppend | user/text.c:145-154 | the measured width of a concatenation is the sum of the widths of its parts |
| Text.WidthBounds | user/text.c:151-153 | a width is never negative and at most 255 per character |
| Text.SpacesWidth | user/text.c:147-149 | a run of spaces measures exactly 3 per space |
| Text.WidthAsWritten | user/text.c:146-151 | `strnwidth` as written, indexing with a signed `char`: defined exactly when every non-space byte is below 128 |
| Text.WidthAsWrittenAgrees | user/text.c:146-151 | where the signed index stays inside the tables, the as-written width equals the unsigned-byte width |
| Text.IconByteUnmeasurable | user/draw_impl.c:184-187 | an icon byte such as 0xE0 falls outside the tables as written, while the unsigned measure reads glyph 0xE0 |
| Text.FontAtlas.constructor | user/text.c:131-133 | a fresh atlas with two 256-entry extent tables |
| Text.FontAtlas.Build | user/text.c:61-90 | after the loop every ASCII glyph's `char_from`/`char_to` are its first lit column and last lit column plus 2 (0xff/0 when blank) and glyphs 128..255 span 0..8 |
| Text.FontAtlas.StrnWidth | user/text.c:137-156 | `strnwidth` returns 0 for NULL or an empty string, else the width of the first min(n, 256) characters |
| Text.FontAtlas.StrWidth | user/text.c:159-162 | `strwidth` is 0 for NULL or empty text, else the width of the whole string capped at 256 characters |
| Text.GlyphExtent | user/text.c:65-80 | the row-by-row, column-by-column scan of one glyph ends with exactly its first lit column and last lit column plus 2 |
| Text.ScanPixel | user/text.c:75-78 | one pixel step keeps the scan invariant: a lit pixel widens `char_from`/`char_to` to cover its column |
| Text.NextRow | user/text.c:67-68 | finishing a row is starting the next one |
| Text.ScanDone | user/text.c:65-80 | after all 64 pixels, `char_from` is 0xff exactly when no pixel is lit, and otherwise both extents are lit columns enclosing every lit pixel |
| Text.ExtentIsFirstAndLast | user/text.c:76-77 | any pair with the final scan properties is the glyph's first lit column and last lit column plus 2 |
| Text.HighGlyphWidth | user/text.c:87-90 | every glyph in the icon half (128..255) measures 8 |
| Text.BlankGlyphWidth | user/text.c:65-66 | a non-space glyph with no lit pixel measures (0 - 0xff) mod 256 = 1 |
| Text.GlyphSpan | user/text.c:76-77 | a glyph with a lit column has `char_from` < 8 and `char_from` + 2 <= `char_to` <= 9 |
| Text.LitGlyphWidth | user/text.c:151 | a non-space glyph with a lit column measures between 2 and 9 |
| Draw.TitlebarHeight | user/draw_impl.c:43-52 | the bar height is 0, 12, 20 or 32; it includes the 12-pixel title bar exactly when WINDOW_NOTITLE is clear and the 20-pixel tool bar exactly when WINDOW_TOOLBAR is set |
| Draw.StencilRect | user/draw_impl.c:132-138 | a point is in the stencil rectangle exactly when it lies within the frame grown by one pixel on every side and extended upward by the bar height |
| Draw.StencilCoversWindow | user/draw_impl.c:135-137 | every point of the frame and of the bars above it is in the stencil rectangle |
| Draw.Repaint | user/draw_impl.c:147-151 | the stencil value after sending WM_PAINTSTENCIL to a list of windows is the starting value or the id of one of them; only a visible window whose procedure leaves the message to the default paints |
| Draw.RepaintIsLastPainter | user/draw_impl.c:141-156 | after `repaint_stencil` a point holds 0 where no window paints it, and otherwise the id of the last window in list order that paints it, a window painting when it is visible, its procedure answers 0 and its stencil rectangle holds the point |
| Draw.HandledStencilPaintsNothing | user/message.c:145-164 | a last window whose procedure answers WM_PAINTSTENCIL with non-zero leaves every stencil point as the earlier windows left it |
| Draw.RepaintAppend | user/draw_impl.c:147-151 | painting two runs of windows one after the other is painting their concatenation |
| Draw.RaisedWindowOwnsItsArea | user/draw_impl.c:147-151 | a window moved to the end of the list owns every point it paints, given that its procedure leaves WM_PAINTSTENCIL to the default |
| Draw.Byte | user/draw_impl.c:185 | storing an `int` into a `char` and reading it as a byte reduces it modulo 256 |
| Draw.Icon8Glyphs | user/draw_impl.c:184-187 | `draw_icon8` draws the one glyph 224 + icon |
| Draw.Icon16Glyphs | user/draw_impl.c:189-193 | `draw_icon16` draws the 2x2 block 2i+128, 2i+129, newline, 2i+144, 2i+145 |
| Draw.IconGlyphsDistinct | user/draw_impl.c:184-193 | 16-pixel icons 0..7 use glyphs 128..159, 8-pixel icons use 224 + icon, and two different 16-pixel icons share no glyph |
| Queue.Coalesce | user/message.c:211-217 | every pending message with the new message's target and kind loses its target; every other message and the length are unchanged |
| Queue.Purge | user/message.c:84-88 | every pending message targeting the window loses its target; every other message and the length are unchanged |
| Queue.PurgeAll | user/message.c:84-88 | purging each window of a set: every pending message naming one of them loses its target, every other message and the length are unchanged |
| Queue.PurgeAllOne | user/message.c:84-88 | purging one window is purging the set that holds only it |
| Queue.PurgeAllUnion | user/message.c:84-88 | purging one set of windows and then another is purging their union |
| Queue.PurgeAllMissing | user/message.c:84-88 | purging windows no pending message names leaves the queue as it was |
| Queue.PurgeAllPost | user/message.c:209-225 | posting a message that names no purged window commutes with the purge, the wrap-around included |
| Queue.PurgeAllPosts | user/message.c:209-225 | posting a run of messages that name no purged window commutes with the purge |
| Queue.PurgedRounds | user/message.c:83-89 | posting, purging, posting messages that avoid the purged windows and purging again is posting both runs, then purging both sets |
| Queue.AfterPosts | user/message.c:209-225 | posting a run of messages leaves fewer than 256 pending slots |
| Queue.CoalesceClears | user/message.c:211-217 | after the clearing loop no live message with that target and kind is pending |
| Queue.PostLeavesOneLive | user/message.c:209-225 | after `post_message` to a window exactly one live message for that (window, kind) is pending, and it is the new one, at the end |
| Queue.WrapAround | user/message.c:219 | the 8-bit write index wraps: 255 posts on an empty queue leave messages pending, and the 256th makes `read == write`, so the queue reads as empty |
| Queue.FillLength | user/message.c:219 | posting n messages to a queue with room for them makes it exactly n longer |
| Queue.Slot | user/message.c:211 | the slot k places after `read` is (read + k) mod 256, the `uint8_t` index arithmetic |
| Queue.RingWindow | user/message.c:211 | the pending window has n entries, entry k being slot read + k mod 256 |
| Queue.FlushStep | user/message.c:229-235 | one step of the flush: a cleared slot is skipped, a WM_REFRESHSTENCIL counts one stencil repaint, anything else is delivered and what its procedure posts is posted before the flush goes on |
| Queue.PostAllDuring | user/message.c:209-225 | posts made during a flush keep the undelivered part the same length and append one slot per post |
| Queue.FlushFrom | user/message.c:227-239 | the pending sequence after a flush still holds at least everything posted during it |
| Queue.Deliverable | user/message.c:230-234 | the deliverable messages are a subsequence no longer than the queue |
| Queue.FlushWithoutReactions | user/message.c:227-239 | when procedures post nothing, a flush delivers exactly the live messages that are not stencil refreshes, in FIFO order, and leaves the queue empty |
| Queue.PostedDuringFlushStayPending | user/message.c:228 | `write` is sampled once: everything posted during the flush is still pending afterwards, one slot per post |
| Queue.FlushDeliversOnlyPending | user/message.c:227-239 | a flush delivers only messages that were live in the queue when it started |
| Queue.PostAllDuringOnlyClears | user/message.c:211-217 | posting during a flush can only clear targets in the undelivered part, never change a message otherwise |
| Queue.MessageQueue.constructor | user/message.c:24-27 | the zero-initialised queue: `read == write == 0` and nothing pending |
| Queue.MessageQueue.Count | user/message.c:211 | the number of pending slots is `(uint8_t)(write - read)`, and `write` lies that many slots after `read` |
| Queue.MessageQueue.Pending | user/message.c:211 | the pending messages are the Count() slots from `read`, oldest first |
| Queue.MessageQueue.Post | user/message.c:209-225 | `post_message` leaves `read` alone, advances `write` by one modulo 256, stores the message at the old `write`, and the pending sequence becomes AfterPost of the old one |
| Queue.MessageQueue.ClearMatching | user/message.c:211-217 | the clearing loop turns the pending sequence into its Coalesce and touches no slot outside the pending window |
| Queue.MessageQueue.Flush | user/message.c:227-239 | `repost_messages` ends with `read` at the sampled `write`, the pending sequence, the delivered messages and the repaint count being exactly those FlushFrom computes from the old pending sequence |
| Queue.MessageQueue.DeliverNext | user/message.c:229-235 | one loop iteration consumes the oldest pending message and relates the flush of the rest to the whole flush as FlushStep states |
| Queue.MessageQueue.TakeOldest | user/message.c:229 | `queue.read++` returns the oldest pending message and drops exactly it |
| Queue.MessageQueue.PostEach | user/message.c:235 | the posts of one procedure during a flush leave `read` alone and give the pending sequence PostAllDuring computes |
| Queue.MessageQueue.Remove | user/message.c:83-89 | `remove_from_global_queue` turns the pending sequence into its Purge and touches no slot outside the pending window |
| Queue.MessageQueue.ClearAt | user/message.c:212-216 | one iteration of the clearing loop extends the cleared prefix by one slot and touches nothing outside the pending window |
| Queue.MessageQueue.PurgeAt | user/message.c:85-87 | one iteration of the purge loop extends the purged prefix by one slot and touches nothing outside the pending window |
| Queue.MessageQueue.FlushOne | user/message.c:229-236 | one iteration of `repost_messages` keeps the tally of what is delivered, repainted and still pending |
| Hooks.Without | user/message.c:66-80 | the hooks not owned by the window, in order: nothing owned by it remains and every hook it does not own is kept |
| Hooks.Matching | user/message.c:99-103 | the hooks `send_message` calls for a kind are exactly the registered hooks for that kind, in list order |
| Hooks.WithoutSkip | user/message.c:73-78 | unlinking one owned hook does not change what remains once all owned hooks are gone |
| Hooks.WithoutNone | user/message.c:73-79 | a list with no hook owned by the window is left as it is |
| Hooks.RegisterThenRemove | user/message.c:56-80 | registering a hook for a window and then removing that window's hooks leaves the other hooks as they were |
| Hooks.Surviving | user/window.c:151-166 | the hooks left once every window outside a live set has been destroyed are exactly those whose owner is live or none, in order |
| Hooks.SurvivingAll | user/window.c:162 | when every owner is live nothing is removed |
| Hooks.SurvivingTwice | user/window.c:162-164 | destroying the windows outside a set and then those outside a smaller set is one removal for the smaller set |
| Hooks.SurvivingWithout | user/window.c:162-164 | removing one window's hooks and then those of every window outside a live set is a single removal |
| Hooks.HookList.constructor | user/message.c:37 | the hook list starts empty |
| Hooks.HookList.Register | user/message.c:56-63 | `register_window_hook` puts the new hook in front of the list |
| Hooks.HookList.Remove | user/message.c:66-80 | `remove_from_global_hooks`, corrected: the list becomes Without(old list, window), so no hook owned by the window is left |
| Hooks.LeadingOwned | user/message.c:68-72 | the first loop frees exactly the run of owned hooks at the head, stopping at the first hook the window does not own |
| Hooks.FirstOwned | user/message.c:73-74 | the index of the first owned hook, or the list length when there is none |
| Hooks.RemoveAsWritten | user/message.c:66-80 | the list the code as written leaves, never longer than before |
| Hooks.RemoveAsWrittenLeavesFreedHook | user/message.c:73-78 | with the list [other, win, win] the code as written leaves the second hook of win linked after freeing it, while the intended result is [other] |
| Tree.SiblingsLevel | user/window.c:29-37 | a window is in its own sibling list (the global list for a top-level window, its parent's children otherwise), every sibling has the same depth and the same sibling list |
| Tree.ChildrenLevel | user/window.c:29-37 | a window's children all sit one level deeper, below the height bound, and form the sibling list of each of them |
| Tree.Root | user/window.c:190-192 | `get_root_window` ends at a live top-level window without a parent, in the global list, and a window without a parent is its own root |
| Tree.RootIsAncestor | user/window.c:190-192 | the root is an ancestor of the window, and the root of a root is itself |
| Tree.IsWindowOnlyTopLevel | user/window.c:317-322 | `is_window` walks the global list only: it holds for a window exactly when the window has no parent, that is when it is its own root |
| Tree.OverlapProperties | user/window.c:80-86 | `do_windows_overlap` is symmetric, false when either window is hidden, and false for frames that only touch along an edge |
| Tree.CommonPointOverlaps | user/window.c:80-86 | two visible windows whose frames share a point overlap |
| Tree.Preorder | user/window.c:240-249 | the depth-first pre-order listing of a sibling list and its descendants contains only windows |
| Tree.FirstWithId | user/window.c:242-244 | a search by id only returns a window of the list that carries the id |
| Tree.FirstWithIdNone | user/window.c:248 | the search comes back empty exactly when no window of the list carries the id |
| Tree.ItemIn | user/window.c:241-248 | the loop of `get_window_item` over a sibling list returns only a window carrying the id |
| Tree.ItemInIsPreorderSearch | user/window.c:240-249 | the recursive loop returns the first match of the pre-order listing |
| Tree.PreorderUnfold | user/window.c:241-247 | the pre-order listing of a sibling list is its first window, then that window's subtree, then the later siblings' listing |
| Tree.GetWindowItem | user/window.c:240-249 | `get_window_item(win, id)` returns only a descendant carrying the id |
| Tree.Descendants | user/window.c:240-249 | the descendants of a window, in pre-order, are windows |
| Tree.GetWindowItemIsPreorderSearch | user/window.c:240-249 | `get_window_item` returns the first window carrying the id among the window's descendants in pre-order, or NULL when none does |
| Tree.NextTabFrom | kernel/event.c:56-63 | the tab search from a position in a sibling list returns only a window that is a tab stop |
| Tree.FindNextTabStop | kernel/event.c:56-63 | `find_next_tab_stop` returns NULL for NULL and otherwise only a tab stop (not `notabstop`, and a child or visible) |
| Tree.ChildrenFirst | kernel/event.c:59 | a window's first child, when it is a childless tab stop, is found before the window itself and its later siblings |
| Tree.NextTabIntoChild | kernel/event.c:59 | tabbing from a window whose first child is a childless tab stop enters that child |
| Tree.NextTabAtLeaf | kernel/event.c:60 | a search allowed to stop at a childless tab stop stops there |
| Tree.TabCycle | kernel/event.c:56-63 | three childless tab stops under one parent: Tab goes from the first to the second, the second to the third, and wraps from the third back to the first |
| Tree.StepToNext | kernel/event.c:61 | from a childless window the next sibling is next when it is a childless tab stop |
| Tree.WrapToFirst | kernel/event.c:62 | past the last child the search resumes at the parent without taking it and takes its first child |
| Tree.FindPrevTabStop | kernel/event.c:66-71 | `find_prev_tab_stop`: the start is the window itself for a child and its forward successor otherwise; the result, when the walk ends within the fuel bound, is the window whose forward successor is that start |
| Tree.HandleMouse | kernel/event.c:44-53 | `handle_mouse` picks the first child in list order that contains the point and whose procedure accepts, and reports none exactly when no child both contains the point and accepts |
| Tree.HandleMouseStopsAtFirst | kernel/event.c:45-50 | no child before the reported one both contains the point and accepts |
| Tree.HitTest | user/message.c:166-177 | the default WM_HITTEST reports a child that is not `notabstop` and contains the point, and none exactly when no such child exists |
| Tree.HitTestIsLast | user/message.c:167-176 | the reported child is the last one in list order that is hit |
| Windows.Note | user/window.c:99-100 | a posted message with only a target and a kind: both set, wparam 0, lparam NULL |
| Windows.Inval | user/window.c:227-232 | `invalidate_window` posts one or two messages to the window, ending with WM_PAINT, and WM_NCPAINT is among them exactly when the window has no parent |
| Windows.OverlapInvals | user/window.c:89-95 | `invalidate_overlaps` invalidates only windows of the global list other than h that overlap h, and invalidates every one of them |
| Windows.OverlapInvalsSnoc | user/window.c:90-94 | one more window in the list adds its invalidation exactly when it is not h and overlaps h |
| Windows.FocusPosts | user/window.c:211-224 | `set_focus` posts WM_KILLFOCUS (naming the new window) exactly when a window had the focus and WM_SETFOCUS (naming the old one) exactly when there is a new one, only to those two windows, and in the order kill, invalidate, set, invalidate |
| Windows.GeometryPosts | user/window.c:98-119 | `move_window` and `resize_window` post WM_RESIZE, then WM_REFRESHSTENCIL, then paint messages ending with the window's own WM_PAINT |
| Windows.RemoveFirst | user/window.c:122-133 | unlinking the first occurrence removes exactly one copy of the window when present and leaves the list alone otherwise |
| Windows.RemoveFirstNoDup | user/window.c:122-133 | in a list without duplicates the window is gone afterwards, every other window stays, and there are still no duplicates |
| Windows.RemoveFromGlobalListAsWritten | user/window.c:122-133 | `remove_from_global_list` as written dereferences the NULL head exactly when the list is empty, and otherwise unlinks the first occurrence |
| Windows.DestroyLastTopLevelCrashes | user/window.c:160-163 | destroying the only top-level window empties the list, and the destruction of its child that follows then reads through the NULL head |
| Windows.RemoveFromGlobalList | user/window.c:122-133 | corrected: agrees with the code wherever the code does not crash, leaves the list alone when the window is absent, and in a list without duplicates removes exactly that window |
| Windows.RaiseProperties | kernel/event.c:74-114 | raising keeps the same windows without duplicates and the others in their order; the raised window ends last unless it is WINDOW_ALWAYSINBACK or absent, in which case the list is unchanged |
| Windows.RemoveFirstAt | user/window.c:125-131 | removing the first occurrence is cutting the list where the scan finds it |
| Windows.Ids | user/window.c:56-58 | the ids marked used are exactly those of the windows of the global list |
| Windows.HighestFree | user/window.c:59-63 | the id loop settles on the highest unused id of 1..255, or on 0 exactly when all are used |
| Windows.HighestFreeIsFresh | user/window.c:55-66 | when any id of 1..255 is free the new top-level window gets a fresh id, no lower than any free one |
| Windows.VScroll | user/message.c:156-158 | the vertical WM_WHEEL default `MAX(0, scroll - (int16)HIWORD)`: the new offset when it is in range, clamped to 0 below |
| Windows.HScrollAsWritten | user/message.c:153-155 | the horizontal default as written, `MIN(0, scroll + (int16)LOWORD)` stored in a `uint16_t`: 0 whenever the sum is not negative, the sum wrapped to 16 bits otherwise |
| Windows.HScrollAsWrittenResets | user/message.c:154 | as written a step to the right never moves the view, a step of 5 to the left from 0 lands on 65531, and a second one goes back to 0 |
| Windows.HScroll | user/message.c:153-155 | corrected, clamped like the vertical axis: the new offset when it is in range, 0 below |
| Windows.HScrollAccumulates | user/message.c:153-155 | corrected, in-range steps accumulate and a step back undoes a step |
| Windows.Wheel | user/message.c:152-158 | the WM_WHEEL default changes only the scroll offsets, and only on the axes whose scroll flag is set; corrected: the horizontal offset accumulates as in the Findings |
| Windows.ToolbarButtonRect | user/message.c:182-188 | toolbar button i occupies the 16x16 square at (x + 2 + 18i, y - 20 + 2) |
| Windows.ToolbarClicks | user/message.c:178-194 | the default WM_NCLBUTTONUP sends TB_BUTTONCLICK for exactly the buttons whose square holds the click |
| Windows.ToolbarClickAtMostOne | user/message.c:186-191 | the squares are 18 pixels apart and 16 wide, so a click hits at most one button, and none of the buttons to its right |
| Windows.Bottom | user/window.c:286-288 | the scan over the children gives a value no lower than its start and no lower than any child's bottom edge |
| Windows.BottomSnoc | user/window.c:286-288 | one more child raises the bottom edge to cover it |
| Windows.Created | user/window.c:281-296 | `load_window_children` creates a control for each definition before the terminator except spaces, in order |
| Windows.LineStart | user/window.c:284-290 | the next control goes on the current line or at the start of a new line below everything placed so far, and stays on the line only when it is not a space |
| Windows.LayoutPlaced | user/window.c:284-296 | a control that is not a space is placed at its line start with its computed size, and the rest continue 5 pixels to its right |
| Windows.LayoutSkipped | user/window.c:284-292 | a space only moves the layout to the start of a new line |
| Windows.LayoutSizes | user/window.c:282-283 | corrected, each created control gets the size its definition asks for: the window width minus padding for w = -1, 10 for h = 0 |
| Windows.LayoutGeometry | user/window.c:278-298 | corrected, the first control starts where the layout starts, each later one continues its predecessor's line 5 pixels to the right or starts a new line at x = 4, and each fits the window width unless it alone is wider |
| Windows.LayoutAsWritten | user/window.c:270-275 | the frames the code as written produces, one per created control: positions from the line logic, but the size copied from the definition |
| Windows.LayoutAsWrittenDropsSize | user/window.c:270-275 | a full-width control (w = -1, h = 0) in a 100-pixel window gets the creation rectangle 92x10 as intended but -1x0 as written; WM_CREATE then grows it, so a push button titled t ends max(92, strwidth(t)+6) x 13 as intended but strwidth(t)+6 x 13 as written |
| State.AddressedCoalesce | user/message.c:211-217 | clearing the targets of duplicates keeps every pending message deliverable |
| State.AddressedPosts | user/message.c:209-225 | posting messages for live windows keeps every pending message deliverable |
| State.AddressedPurge | user/message.c:83-89 | after `remove_from_global_queue` no pending message names the window any more |
| State.AddressedWeaker | user/message.c:209-225 | a message deliverable in a smaller arena with more windows dying is deliverable in a larger one with fewer dying |
| State.AddressedAvoids | user/message.c:83-89 | deliverable messages name no window that is gone or dying |
| State.LinkedUpdate | user/window.c:98-119 | changing a window's fields other than its parent and children keeps the window forest linked |
| State.LinkedUnlist | user/window.c:122-133 | taking a window off the global list keeps the forest linked, the window now counting as dying |
| State.LinkedReorder | kernel/event.c:74-114 | reordering the global list keeps the forest linked |
| State.LinkedAddTop | user/window.c:29-37 | appending a new top-level window to the global list keeps the forest linked, the new window at depth 0 |
| State.LinkedAddChild | user/window.c:29-37 | appending a new last child to a window's children keeps the forest linked, the child one level deeper |
| State.Erase | user/window.c:145-147 | a list without a window: the window is gone, the list is shorter when it was there, and every other window is kept |
| State.Unlinked | user/window.c:151-166 | freeing a window removes exactly it from the arena |
| State.LinkedRemoveLeaf | user/window.c:164-165 | freeing a childless window that is off the global list keeps the forest linked |
| State.NoOrphans | user/window.c:151-166 | in a linked forest nothing lies below a window that is gone |
| State.BelowChild | user/window.c:143-147 | a window strictly below h lies below one of h's children, so h has children |
| State.ClearStep | user/window.c:143-147 | destroying one child of h is a step of clearing h's subtree |
| State.OutsideChildren | user/window.c:143-147 | a child of h reaches none of the dying windows outside h's subtree, and is live, not h and not top-level |
| State.ChildGone | user/window.c:143-147 | destroying a child of h leaves h with that child removed from its children |
| State.ClearDone | user/window.c:142-166 | once h has no children left, freeing it removes exactly h's subtree from the arena |
| Desktop.Answer | user/window.c:174-187 | the answer for a window that catches the point is that window or one of its children |
| Desktop.FoundIsLastCatcher | user/window.c:174-187 | `find_window` finds nothing exactly when no top-level window catches the point; otherwise it answers for the last one that does |
| Desktop.FoundNone | user/window.c:174-187 | nothing is found exactly when no listed window catches the point |
| Desktop.FoundAt | user/window.c:174-187 | when the i-th window is the last that catches the point, the answer is its answer |
| Desktop.Resized | user/window.c:110-119 | `resize_window` keeps x and y, takes each positive dimension and keeps the old one otherwise |
| Desktop.Cleared | user/window.c:155-157 | a released global no longer names h, and any other value is kept |
| Desktop.Unfocused | user/window.c:211-224 | moving the focus changes only the window losing it, which stops editing; links and handles are kept |
| Desktop.Dropped | user/window.c:142-166 | a global after a subtree is freed names a surviving window or nothing, and a surviving one is kept |
| Desktop.DroppedCleared | user/window.c:151-166 | releasing h and then the rest of a subtree releases the whole subtree |
| Desktop.ReleasePosts | user/window.c:155-157 | releasing h posts nothing exactly when h held neither the focus nor the mouse tracking, and every post goes to h |
| Desktop.DetachPosts | user/window.c:151-157 | the posts of `destroy_window` before the removals begin with the stencil refresh, followed by the overlap invalidations and the release posts |
| Desktop.DetachPostsAddressed | user/window.c:151-157 | every one of those posts is for the stencil, for h or for a listed window, none of them dying |
| Desktop.DestroyRounds | user/window.c:151-166 | the queue after `destroy_window`: the detach posts and the subtree's posts made, then every destroyed window purged |
| Desktop.FreedRound | user/window.c:165 | freeing a dying window purges nothing more from the queue |
| Desktop.ClearRound | user/window.c:142-148 | one pass of `clear_window_children` adds the child's posts after the earlier ones and purges what it destroyed |
| Desktop.FocusChange | user/window.c:211-224 | `set_focus` posts nothing when g already has the focus, and the kill/set pair otherwise |
| Desktop.NewId | user/window.c:52-67 | a child's id exceeds its parent's counter; a top-level id is in 0..255, is 0 exactly when every id 1..255 is taken, and is otherwise unused by any top-level window |
| Desktop.FocusSplit | user/window.c:211-224 | posting the WM_KILLFOCUS half and then the WM_SETFOCUS half posts the whole focus change, in order |
| Desktop.ReleaseSplit | user/window.c:155-157 | the focus part and the tracking part of the release post exactly the release messages |
| Desktop.SoundFreed | user/window.c:164-165 | freeing a childless dying window keeps the desktop invariant |
| Desktop.SoundUpdate | user/window.c:98-119 | changing a window's fields other than its links keeps the desktop invariant |
| Desktop.ChildAdded | user/window.c:29-37 | linking in a new last child keeps the forest, the rooting, the globals, the queue and the hooks valid |
| Desktop.Desktop.constructor | user/window.c:15-18 | the desktop starts with no windows, an empty queue, no hooks and no focus, capture or tracking |
| Desktop.Desktop.Post | user/message.c:209-225 | `post_message` leaves the queue as the post specification says and keeps the queue invariant |
| Desktop.Desktop.Invalidate | user/window.c:227-232 | `invalidate_window` posts WM_NCPAINT (for a window without a parent) and WM_PAINT to h itself |
| Desktop.Desktop.InvalidateOverlaps | user/window.c:89-95 | every other top-level window overlapping h is invalidated, in list order |
| Desktop.Desktop.InvalidateIfOverlapping | user/window.c:91-94 | one step of `invalidate_overlaps`: t is invalidated exactly when it differs from h and overlaps it |
| Desktop.Desktop.Send | user/message.c:92-206 | `send_message` runs the matching hooks, then the procedure; on 0 the default stores toolbar buttons, scrolls and invalidates on WM_WHEEL, hit-tests children, reports toolbar clicks, paints children or the stencil; a NULL target does nothing; corrected: WM_WHEEL uses the accumulating horizontal scroll of the Findings |
| Desktop.Desktop.SetFocus | user/window.c:211-224 | `set_focus` leaves g focused, the old window no longer editing, and posts nothing when g was already focused |
| Desktop.Desktop.MoveFocus | user/window.c:214-223 | with a real change, the old window is told it lost the focus and the new one that it gained it, each invalidated |
| Desktop.Desktop.KillFocus | user/window.c:214-218 | the window losing the focus stops editing and gets WM_KILLFOCUS naming the new one, then an invalidation |
| Desktop.Desktop.GiveFocus | user/window.c:219-223 | the window gaining the focus gets WM_SETFOCUS naming the old one, then an invalidation, and the global names it |
| Desktop.Desktop.SetCapture | user/window.c:206-208 | `set_capture` stores g and keeps the invariant |
| Desktop.Desktop.TrackMouse | user/window.c:195-203 | `track_mouse` invalidates the window tracked so far, if it differs from g, and then tracks g |
| Desktop.Desktop.GeometryNotify | user/window.c:98-115 | moving or resizing first refreshes the stencil and invalidates the window and what it overlaps |
| Desktop.Desktop.Move | user/window.c:98-107 | `move_window` changes only x and y of h, after the repaint posts |
| Desktop.Desktop.Resize | user/window.c:110-119 | `resize_window` takes each positive dimension and keeps the rest, after the repaint posts |
| Desktop.Desktop.MoveToTop | kernel/event.c:74-114 | `move_to_top` refreshes the stencil for the root of h, invalidates it and moves it to the end of the global list unless it stays in the back |
| Desktop.Desktop.IndexInTop | kernel/event.c:80-90 | the scan finds the first position of the root in the global list |
| Desktop.Desktop.EnableWindow | user/window.c:325-331 | disabling the focused window first takes the focus away; the flag is stored and the window invalidated |
| Desktop.Desktop.SetDisabled | user/window.c:329-330 | the disabled flag is stored and the window invalidated, nothing else changes |
| Desktop.Desktop.FindWindow | user/window.c:174-187 | the loop of `find_window` returns the answer for the last top-level window that catches the point |
| Desktop.Desktop.FindStep | user/window.c:176-185 | one step of the loop: the answer changes exactly when this window catches the point |
| Desktop.Desktop.TopLevelId | user/window.c:55-63 | the top-level id is the highest id in 1..255 no top-level window uses, or 0 |
| Desktop.Desktop.RegisterHook | user/message.c:56-63 | `register_window_hook` puts the new hook at the head of the list |
| Desktop.Desktop.Release | user/window.c:155-157 | each of focus, capture and tracking that names h is cleared, with the focus-change and tracking posts |
| Desktop.Desktop.DropFocus | user/window.c:155 | the focus is taken away from h if h holds it |
| Desktop.Desktop.DropPointer | user/window.c:156-157 | capture and tracking no longer name h; ending the tracking of h invalidates it |
| Desktop.Desktop.Conceal | user/window.c:303-307 | hiding invalidates what h covered and releases the three globals |
| Desktop.Desktop.Reveal | user/window.c:308-311 | showing raises the root of h and gives h the focus |
| Desktop.Desktop.ShowWindow | user/window.c:301-314 | `show_window` stores the flag between a stencil refresh and WM_SHOWWINDOW, hiding or revealing as above |
| Desktop.Desktop.StoreVisible | user/window.c:312-313 | the visible flag is stored and WM_SHOWWINDOW posted with 1 or 0 |
| Desktop.Desktop.CreateWindow | user/window.c:40-77 | `create_window` links a fresh handle into its parent's children or the global list, gives it the focus and its id, and invalidates a child |
| Desktop.Desktop.Spawn | user/window.c:68-76 | once the id is chosen, the window is linked in, focused and announced |
| Desktop.Desktop.ChooseId | user/window.c:52-67 | the id chosen is the one NewId describes |
| Desktop.Desktop.Announce | user/window.c:73-76 | after WM_CREATE only a child is invalidated |
| Desktop.Desktop.Link | user/window.c:68-71 | the window is pushed onto the parent's children or the global list and takes the focus |
| Desktop.Desktop.LinkChild | user/window.c:29-37 | `push_window` onto the parent's children: the child is last and the parent's counter is stored |
| Desktop.Desktop.LinkTop | user/window.c:29-37 | `push_window` onto the global list: the window is last |
| Desktop.Desktop.CreateFromDef | user/window.c:270-275 | `create_window2` creates a child of the parent with the given frame and the definition's id; corrected: the frame's size is the computed one, as in the Findings |
| Desktop.Desktop.LoadWindowChildren | user/window.c:278-298 | the children created are appended to h's children, are new, and get exactly the frames the layout function computes; corrected: the computed sizes are used, as in the Findings |
| Desktop.Desktop.PlaceNext | user/window.c:282-296 | one definition of the loop keeps the layout invariant: frames so far plus the layout of the rest are the goal; corrected: the computed sizes are used, as in the Findings |
| Desktop.Desktop.AddControl | user/window.c:293-296 | one control is created with frame r; the running bottom edge becomes the maximum with r's bottom; corrected: the computed size is used, as in the Findings |
| Desktop.Desktop.NextPosition | user/window.c:282-290 | the next line start is the one the layout function computes from the children's bottom edge |
| Desktop.Desktop.ChildrenBottom | user/window.c:286-288 | the scan returns the lowest bottom edge of h's children, starting from y |
| Desktop.Desktop.Detach | user/window.c:151-163 | before the children go, h is off the global list, its hooks are gone and the globals no longer name it; the queue is the old one after the detach posts, with h purged; corrected: uses the crash-free list removal and hook removal of the Findings |
| Desktop.Desktop.Destroy | user/window.c:151-166 | `destroy_window` removes exactly h's subtree, drops the globals and hooks that named any of it, and keeps the invariant; the queue is the old one after the posts of the whole destruction, which begin with the detach posts and name no window that was dying, with every destroyed window purged; corrected: uses the crash-free list removal and hook removal of the Findings |
| Desktop.Desktop.Dismantle | user/window.c:164-165 | clearing the children and freeing h prunes exactly h's subtree; the queue is the old one after the subtree's posts, with the destroyed windows purged; corrected: the children are destroyed with the corrected removals |
| Desktop.Desktop.ClearChildren | user/window.c:142-148 | `clear_window_children` destroys children first to last until h has none; the queue is the old one after the children's posts, with the destroyed windows purged; corrected: the children are destroyed with the corrected removals |
| Desktop.Desktop.DestroyFirstChild | user/window.c:145-147 | one pass destroys the first child, shrinking h's list; the queue is the old one after the child's posts, with the destroyed windows purged; corrected: the child is destroyed with the corrected removals |
| Desktop.Desktop.Free | user/window.c:165 | the final free removes exactly h from the arena |
| Desktop.Desktop.Farewell | user/window.c:152-154 | destruction starts with a stencil refresh and the overlap invalidations |
| Desktop.Desktop.Unlist | user/window.c:161-163 | h leaves the global list, its hooks go and its queued messages are purged; corrected: uses the crash-free list removal and hook removal of the Findings |
| Desktop.Desktop.Unlisted | user/window.c:161-163 | after those removals h may count as dying and the invariant still holds |
| Desktop.Desktop.Focus | user/window.c:223 | the last step of `set_focus`: the global names g |
| Control.Win.constructor | user/window.c:47-69 | a new control record has the given frame and id, the title cut to its first 64 characters (a longer title keeps no terminating NUL), and every flag clear |
| Control.Clicked | user/user.h:12 | the BN_CLICKED notification word carries the control id in its low half and BN_CLICKED in its high half |
| Control.Grown | commctl/button.c:16-17 | the WM_CREATE sizing keeps the position and grows each dimension to at least its minimum, never shrinking it |
| Control.NotificationsAppend | commctl/button.c:33 | notifications of two runs of effects add up |
| Control.Clicks | commctl/button.c:27-35 | n clicks are 2n inputs holding n releases and ending with a button-up |
| Button.ButtonProc | commctl/button.c:13-54 | `win_button` follows the press/release machine: the reply, the new `pressed` and the notifications; WM_CREATE grows the frame to the title width plus 6 and BUTTON_HEIGHT |
| Button.SpaceProc | commctl/button.c:56-58 | `win_space` handles nothing |
| Button.ReactNotifies | commctl/button.c:31-35 | one input notifies the root exactly when it is a release |
| Button.RunNotifies | commctl/button.c:27-51 | over any run of inputs, the root gets exactly one BN_CLICKED per release |
| Button.RunPressed | commctl/button.c:27-51 | after a run, `pressed` is set exactly when the last press-or-release input was a press, and unchanged when there was none |
| Button.ClicksNotify | commctl/button.c:27-35 | n complete clicks leave the button released and send exactly n notifications |
| Button.KeysMirrorMouse | commctl/button.c:36-51 | Return and Space act exactly as the left button; any other key is refused and changes nothing |
| Checkbox.Not | commctl/checkbox.c:35 | C's `!` yields 1 exactly for 0 and 0 otherwise |
| Checkbox.CheckboxProc | commctl/checkbox.c:14-63 | `win_checkbox` follows the toggle machine: the reply, `pressed`, `value` and the notifications; WM_CREATE grows the frame to the title width plus 16 and BUTTON_HEIGHT |
| Checkbox.RunToggles | commctl/checkbox.c:29-60 | without BM_SETCHECK, the value ends flipped exactly when the number of releases is odd, and each release notifies once |
| Checkbox.ReactFlips | commctl/checkbox.c:29-60 | one input other than BM_SETCHECK flips the value and notifies exactly when it is a release |
| Checkbox.TwoClicksRestore | commctl/checkbox.c:33-38 | two complete clicks restore the value and notify twice |
| Checkbox.SetThenGet | commctl/checkbox.c:39-43 | BM_GETCHECK reads back, as 1 or 0, what BM_SETCHECK stored, and neither touches `pressed` |
| Label.LabelProc | commctl/label.c:16-28 | `win_label` handles exactly WM_CREATE and WM_PAINT; WM_CREATE widens the frame to the title and leaves the label out of tab order; anything else changes nothing |
| TextEdit.Inserted | commctl/edit.c:51-54 | the `memmove` right and the store put c at pos, one longer, with the text before and after pos kept |
| TextEdit.Erased | commctl/edit.c:75-77 | the `memmove` left drops exactly the character before pos, keeping the rest |
| TextEdit.ErasedInserted | commctl/edit.c:51-54 | erasing the character just inserted gives the text back |
| TextEdit.Key | commctl/edit.c:59-95 | the WM_KEYDOWN branch keeps the caret within the text |
| TextEdit.Typed | commctl/edit.c:49-58 | the WM_TEXTINPUT branch keeps the caret within the text and leaves `editing` alone |
| TextEdit.Abs | commctl/edit.c:43 | `abs` is the value or its negation |
| TextEdit.NearestUnique | commctl/edit.c:40-46 | a click has exactly one caret position, the nearest gap with ties going to the earliest |
| TextEdit.PlaceCaret | commctl/edit.c:39-46 | the scan leaves the caret at the gap nearest to the click |
| TextEdit.EditProc | commctl/edit.c:18-98 | `win_textedit`: WM_CREATE grows the frame; a click on the focused field starts editing with the caret at the nearest gap; text input and keys follow Typed and Key; everything else is refused and changes nothing |
| TextEdit.KeyDown | commctl/edit.c:59-95 | the WM_KEYDOWN arm applies Key to the field |
| TextEdit.TypeThenErase | commctl/edit.c:49-79 | typing a character while editing and then Backspace restore the field |
| TextEdit.TypingUngated | commctl/edit.c:49-58 | text input goes in whether or not the field is editing |
| TextEdit.ReturnTwice | commctl/edit.c:61-69 | Return starts editing with the caret at the end; a second Return tells the root EN_UPDATE and stops editing |
| TextEdit.LeftRight | commctl/edit.c:73-90 | Left then Right gives the caret back while editing; without editing Left, Right and Backspace change nothing |
| TextEdit.OtherKeys | commctl/edit.c:91-92 | any other key changes nothing and answers with `editing` |
| ComboBox.FirstMatch | commctl/combobox.c:71-76 | the selection is the first entry with the title's text, and CB_ERR exactly when there is none |
| ComboBox.FirstAt | commctl/combobox.c:72-75 | the first entry with the text is the one found |
| ComboBox.SelectionFound | commctl/combobox.c:64-76 | selecting entry i and reading back finds i, or an earlier entry with the same text |
| ComboBox.AddedFound | commctl/combobox.c:49-53 | after adding t, the selection reads back as the new index unless an earlier entry already holds t |
| ComboBox.Combo.Entries | commctl/combobox.c:50-51 | there are as many entries as the count in `cursor_pos` |
| ComboBox.Combo.constructor | commctl/combobox.c:24-28 | WM_CREATE sizes as a button, then at least the title width plus 16, with an empty table |
| ComboBox.Combo.AddString | commctl/combobox.c:49-56 | CB_ADDSTRING succeeds exactly while fewer than 256 entries exist, appending a copy of s and making it the title; otherwise nothing changes |
| ComboBox.Combo.GetLbText | commctl/combobox.c:57-63 | CB_GETLBTEXT yields entry i exactly when i is below the count |
| ComboBox.Combo.SetCurSel | commctl/combobox.c:64-70 | CB_SETCURSEL makes entry i the title exactly when i is below the count, and otherwise changes nothing |
| ComboBox.Combo.GetCurSel | commctl/combobox.c:71-76 | the loop of CB_GETCURSEL returns the first match or CB_ERR |
| ComboBox.Combo.Default | commctl/combobox.c:77-78 | every message the combobox does not handle behaves as in `win_button`, and the entries, title and frame stay as they were |
| ComboBox.Combo.Click | commctl/combobox.c:36-48 | a release notifies the root as a button does, then drops a list 100 high just under the combobox, in root coordinates |
| DropList.ListBox.constructor | commctl/list.c:25-27 | WM_CREATE takes the combobox from lparam |
| DropList.ListBox.SelItem | commctl/list.c:49-51 | LIST_SELITEM stores the row as given |
| DropList.ListBox.Press | commctl/list.c:38-44 | a press highlights row y / 13 and, when it holds an entry, makes that entry the combobox's title; the entries stay as they are |
| DropList.ListBox.Release | commctl/list.c:45-48 | a release sends CBN_SELCHANGE with the combobox id to its root, then the list destroys itself |
| DropList.PressSelects | commctl/list.c:38-42 | after a press on an entry row the combobox reads that row, or an earlier one with the same text, back as its selection |
| ColumnView.Stored | commctl/columnview.c:115-119 | the stored copy keeps at most 255 characters, a prefix of the text, the whole text when it fits, and the other fields unchanged |
| ColumnView.ColumnCount | commctl/columnview.c:29-35 | `get_column_count` is at least 1, and it is the width over the column width whenever both are positive and at least one column fits |
| ColumnView.ClickKeepsSelection | commctl/columnview.c:77-110 | a click keeps the selection an existing item or -1 |
| ColumnView.DoubleClick | commctl/columnview.c:85-107 | a first click selects and remembers; a second on the same item within 500 ms sends CVN_DBLCLK and forgets; a third starts over as a single click |
| ColumnView.ClickElsewhere | commctl/columnview.c:85-107 | a click outside the items changes nothing; a click on another item selects it and is never a double-click |
| ColumnView.DeleteAdded | commctl/columnview.c:112-147 | deleting the item just added gives back the items there were |
| ColumnView.View.Entries | commctl/columnview.c:20-21 | there are `count` items |
| ColumnView.View.constructor | commctl/columnview.c:42-52 | WM_CREATE: no items, nothing selected, the default column width and no click memory |
| ColumnView.View.AddItem | commctl/columnview.c:112-125 | CVM_ADDITEM appends a stored copy and returns its index when an item is given and there is room, and otherwise returns -1 and changes nothing |
| ColumnView.View.DeleteItem | commctl/columnview.c:127-147 | CVM_DELETEITEM succeeds exactly for an existing index, removing that item and keeping the selection on the same item, or none if it was deleted |
| ColumnView.View.GetItemCount | commctl/columnview.c:149-150 | CVM_GETITEMCOUNT is the number of items |
| ColumnView.View.GetSelection | commctl/columnview.c:152-153 | CVM_GETSELECTION is an existing index or -1 |
| ColumnView.View.SetSelection | commctl/columnview.c:155-163 | CVM_SETSELECTION takes exactly -1 or an existing index |
| ColumnView.View.Clear | commctl/columnview.c:165-171 | CVM_CLEAR leaves no items, no selection and no click memory |
| ColumnView.View.SetColumnWidth | commctl/columnview.c:173-181 | CVM_SETCOLUMNWIDTH takes exactly a positive width |
| ColumnView.View.GetColumnWidth | commctl/columnview.c:183-184 | CVM_GETCOLUMNWIDTH is the positive column width |
| ColumnView.View.GetItemData | commctl/columnview.c:186-196 | CVM_GETITEMDATA copies item `(int)wparam` exactly when it exists and a destination is given |
| ColumnView.View.SetItemData | commctl/columnview.c:198-211 | CVM_SETITEMDATA replaces exactly that item by a stored copy when it exists and an item is given |
| ColumnView.View.Click | commctl/columnview.c:77-110 | WM_LBUTTONDOWN maps the point to an item index and applies the click step to the selection and click memory; it is always handled |
| TextBuf.Doubled | commctl/terminal.c:77-79 | the capacity doubles until the text fits: at least the need, unchanged exactly when it already sufficed, and less than the need before the last doubling |
| TextBuf.DoubledIsPower | commctl/terminal.c:79 | the grown capacity is the old one times a power of two |
| TextBuf.Buffer.constructor | commctl/terminal.c:58-66 | `init_text_buffer`: empty text and 4096 bytes |
| TextBuf.Buffer.Append | examples/process.h:43-53 | the append of process.h: the text gains s at its end and the capacity doubles until text, s and the NUL fit |
| TextBuf.StrCat | commctl/terminal.c:73-89 | the append of terminal.c: a null buffer or string changes nothing; a failed reallocation keeps the old buffer; otherwise the text gains s and the capacity is doubled as needed |
| Terminal.Trimmed | commctl/terminal.c:196 | the command with its leading spaces and tabs skipped: a suffix that starts with neither, everything skipped being blank |
| Terminal.Find | commctl/terminal.c:205-211 | the first table entry with exactly that name, and -1 exactly when there is none |
| Terminal.FindCommand | commctl/terminal.c:185-190 | "exit", "help" and "clear", and nothing else, are found in the table, in that order |
| Terminal.LinesList | commctl/terminal.c:164-173 | the help listing holds the line, and so the name, of every table entry |
| Terminal.ProcessedFlags | commctl/terminal.c:192-223 | only `exit` finishes the terminal and stops it waiting; nothing un-finishes it; the input line is left alone |
| Terminal.AnsweredKeeps | commctl/terminal.c:203-217 | every answer but `clear`'s appends to the text |
| Terminal.ProcessedKeeps | commctl/terminal.c:175-223 | only `clear` drops the text already shown; every other command line appends |
| Terminal.ProcessedPrompts | commctl/terminal.c:219-222 | a terminal that has not finished ends its text with the prompt |
| Terminal.TrailingBlankUnknown | commctl/terminal.c:195-217 | a trailing blank is not trimmed, so "help " is an unknown command |
| Terminal.ClearLeavesTwoPrompts | commctl/terminal.c:175-182 | `clear` on a running terminal leaves two prompts: its own and `process_command`'s |
| Terminal.TypeThenBackspace | commctl/terminal.c:327-356 | typing a printable character and then Backspace restores the session |
| Terminal.InputBounded | commctl/terminal.c:305-356 | the input line never reaches 256 characters, a full line refuses more, and a finished terminal takes no input at all |
| Terminal.TypeLine | commctl/terminal.c:338-356 | printable characters typed one at a time while there is room extend the input line |
| Terminal.EnterAfterTyping | commctl/terminal.c:308-326 | typing a line and pressing Return echoes it, runs it and clears the input |
| Terminal.TextAside | commctl/terminal.c:192-223 | what a command does to the input line and the flags does not depend on the text shown |
| Terminal.HelpRuns | commctl/terminal.c:164-173 | `help` appends the listing and the prompt |
| Terminal.ExitRuns | commctl/terminal.c:155-159 | `exit` appends its farewell, finishes, stops waiting and shows no prompt |
| Terminal.HelpListed | commctl/terminal.c:164-173 | the help text holds its header and the name of every command |
| Terminal.HelpSession | commctl/terminal.c:308-326 | typing "help" and Return lists every command and prompts again, still waiting |
| Terminal.ExitSession | commctl/terminal.c:308-326 | typing "exit" and Return finishes the terminal, which then refuses all input |
| Terminal.Terminal.constructor | commctl/terminal.c:256-275 | WM_CREATE in command mode: waiting, not finished, an empty input line and the banner then the prompt, or no buffer when its allocation fails |
| Terminal.Terminal.Write | commctl/terminal.c:73-89 | `f_strcat` on the terminal's buffer appends s |
| Terminal.Terminal.WriteLine | commctl/terminal.c:167-171 | one line of the listing is appended |
| Terminal.Terminal.ListCommands | commctl/terminal.c:164-173 | `cmd_help` appends the header and one line per table entry |
| Terminal.Terminal.Run | commctl/terminal.c:155-182 | a command's callback does what Ran says to the session |
| Terminal.Terminal.Answer | commctl/terminal.c:203-217 | the table search runs the command found or reports it unknown |
| Terminal.Terminal.SkipBlanks | commctl/terminal.c:196 | the loop stops where the trimmed command starts |
| Terminal.Terminal.ProcessCommand | commctl/terminal.c:192-223 | `process_command` does to the session what Processed says |
| Terminal.Terminal.RespondTo | commctl/terminal.c:198-222 | an empty command gets a bare prompt, any other the answer and then the prompt |
| Terminal.Terminal.Prompt | commctl/terminal.c:219-222 | the closing prompt is appended unless the terminal has finished |
| Terminal.Terminal.Submit | commctl/terminal.c:308-326 | Return echoes the line, runs it as a command and clears it |
| Terminal.Terminal.KeyDown | commctl/terminal.c:304-337 | WM_KEYDOWN does to the session what Key says: Return submits, Backspace drops the last character, anything else is refused |
| Terminal.Terminal.TextInput | commctl/terminal.c:338-356 | WM_TEXTINPUT does what Typed says: a printable character is appended while there is room |
| Terminal.GetBuffer | commctl/terminal.c:228-244 | `terminal_get_buffer` is the buffer's text for a terminal window with a buffer, and "" otherwise |
| Strings.ContainsWithin | commctl/terminal.c:164-173 | text found in b is found in any a + b + c |
| Strings.ContainsTrans | commctl/terminal.c:164-173 | containment is transitive |
| Process.CharOf | examples/process.h:131 | `(char)wparam` is the low byte read as a signed char, in -128..127 and congruent to wparam modulo 256 |
| Process.Resumed | examples/process.h:141-155 | a resumption keeps the input line and leaves the script waiting exactly when it yielded |
| Process.LowByteOnly | examples/process.h:131 | only the low byte of wparam decides what a key does |
| Process.HandledKeys | examples/process.h:128-177 | a key is handled exactly while the script waits and it is CR, LF, backspace, DEL or printable; an unhandled key changes nothing |
| Process.HighBytesIgnored | examples/process.h:167 | bytes 128..255 are negative as a signed char and are never handled |
| Process.TranscriptGrows | examples/process.h:128-177 | every key keeps what was shown before as a prefix of the transcript |
| Process.InputBounded | examples/process.h:169-173 | the input line stays shorter than its 256-byte buffer |
| Process.EnterHandsOver | examples/process.h:132-159 | Return or LF echoes the line and a newline, then the outcome of the resumption; the line is cleared and the script waits again exactly when it yielded |
| Process.TypeThenErase | examples/process.h:160-174 | typing a printable character into a line with room, then a backspace, restores the session |
| Process.FinishedIsDeaf | examples/process.h:129-155 | once the script has finished or failed, no key is handled |
| Process.Terminal.constructor | examples/process.h:73-126 | WM_CREATE: the banner, then the load error or the outcome of the first run |
| Process.Terminal.Resume | examples/process.h:141-155 | the outcome of a resumption is appended as Resumed says |
| Process.Terminal.Report | examples/process.h:150-153 | an error line is its heading, the message and a newline |
| Process.Terminal.KeyDown | examples/process.h:128-177 | WM_KEYDOWN does what Key says: line editing, and Return hands the line to the script |
| Tray.SpanConcat | commctl/tray.c:26 | the room taken by two runs of buttons adds up |
| Tray.Shifted | commctl/tray.c:59-61 | every later button is moved left by the same amount, in order |
| Tray.SpanShifted | commctl/tray.c:59-61 | moving buttons keeps the room they take |
| Tray.Removed | commctl/tray.c:43-61 | removing a button leaves one fewer |
| Tray.FirstOwned | commctl/tray.c:43-54 | the first button standing for the window, and -1 exactly when there is none |
| Tray.SpanAfterRemoval | commctl/tray.c:59-62 | past the removed button, the room before each button shrinks by exactly the removed button's room |
| Tray.RemovedAt | commctl/tray.c:59-61 | after a removal each button sits right after the ones before it |
| Tray.RemovedLaid | commctl/tray.c:59-62 | removing a button keeps the strip packed and frees exactly its width plus 4 |
| Tray.AddThenRemove | commctl/tray.c:23-62 | a button added for a window that had none, then removed, leaves the tray as it was |
| Tray.ButtonFrame | commctl/tray.c:24-25 | a new button sits at `cursor_pos`, 2 down, as wide as its title plus 6 and BUTTON_HEIGHT high |
| Tray.TrayWindow.constructor | commctl/tray.c:70-75 | WM_CREATE: `cursor_pos` 22 and a strip along the bottom of the screen, as wide as the screen and BUTTON_HEIGHT + 4 high |
| Tray.TrayWindow.CreateButton | commctl/tray.c:23-28 | `create_button` appends a button for the window at `cursor_pos`, which moves past it by its width plus 4 |
| Tray.TrayWindow.OnWinCreated | commctl/tray.c:30-34 | exactly a top-level window without WINDOW_NOTRAYBUTTON gets a button |
| Tray.TrayWindow.OnWinDestroyed | commctl/tray.c:36-66 | for a top-level window, its first button is removed and destroyed, the later ones close the gap and `cursor_pos` moves back; otherwise nothing changes |
| Tray.TrayWindow.Find | commctl/tray.c:43-54 | the search finds the first button for the window |
| Tray.TrayWindow.CloseGap | commctl/tray.c:44-61 | unlinking button k and moving the later ones left gives the tray without k |
| Tray.TrayWindow.Command | commctl/tray.c:80-85 | BN_CLICKED from a button toggles the visibility of its window; any WM_COMMAND is handled |
| Tray.Gaps | commctl/tray.c:26 | neighbouring buttons are exactly 4 pixels apart, and the last ends 4 before `cursor_pos` |
| Console.Clipped | commctl/console.c:63 | `vsnprintf` keeps a prefix of at most 255 characters, the whole text when it fits |
| Console.Next | commctl/console.c:50 | the next slot is a slot |
| Console.SlotAfterNext | commctl/console.c:50 | after a write the new message is the newest, and the i-th newest becomes the (i+1)-th |
| Console.SlotsDistinct | commctl/console.c:84 | the walk back from the newest slot visits 32 different slots |
| Console.Age | commctl/console.c:88 | the age is the tick difference in unsigned 32-bit arithmetic, exact when no wrap-around happened |
| Console.Picked | commctl/console.c:83-109 | the slots drawn are at most as many as visited, and are slots |
| Console.PickedFresh | commctl/console.c:89 | only messages younger than 5 seconds are drawn |
| Console.Continues | commctl/console.c:83 | the walk passes a slot exactly while fewer than `count` slots are visited and fewer than 10 lines drawn |
| Console.Marked | commctl/console.c:105-108 | marking changes only the active flags |
| Console.Texts | commctl/console.c:100 | the lines drawn are the texts of the slots drawn, in order |
| Console.VisitStep | commctl/console.c:84-108 | visiting one more slot draws it when it is fresh, and otherwise marks it inactive |
| Console.Stops | commctl/console.c:83 | the walk stops after `count` slots, or earlier exactly when 10 lines are drawn, and never draws more than 10 |
| Console.NewestFirst | commctl/console.c:83-104 | right after a print, the newest message is the first line drawn |
| Console.PickedGrows | commctl/console.c:83-109 | what is drawn among the first visits stays drawn as the walk goes on |
| Console.MarkedKeeps | commctl/console.c:105-108 | marking messages inactive keeps the texts the ring holds |
| Console.Ring.constructor | commctl/console.c:36-42 | `init_console`: no messages, no last slot, shown |
| Console.Ring.Print | commctl/console.c:45-72 | `conprintf` writes the clipped text and the time into the next slot, counting up to 32 |
| Console.Ring.Toggle | commctl/console.c:119-121 | `toggle_console` flips only the visibility |
| Console.Ring.Draw | commctl/console.c:75-110 | `draw_console` draws nothing while hidden; otherwise it draws the fresh texts newest first, at most 10, and marks the aged-out ones it passes |
| Console.Ring.Walk | commctl/console.c:83-109 | the loop draws and marks as Picked and Marked say |
| Console.Ring.Visit | commctl/console.c:84-108 | one loop step extends the drawn lines and the marks as VisitStep says |
| Console.ConsoleProc | commctl/console.c:123-132 | `win_console` returns false for every message and draws the console only on WM_PAINT |
| FileManager.FileColor | examples/filemanager.c:31-43 | names starting with '.' are dimmed, even directories; otherwise directories are folder-coloured, names holding ".lua" script-coloured, and the rest normal; each colour exactly in its case |
| FileManager.FileIcon | examples/filemanager.c:45-51 | the folder icon exactly for directories, the file icon otherwise |
| FileManager.Added | examples/filemanager.c:53-68 | one pass adds at most one item per entry, each marked as a directory exactly in the directory pass |
| FileManager.EntryListed | examples/filemanager.c:55-66 | every entry other than "." and ".." that `stat` could read is listed in the pass of its kind |
| FileManager.ListingOrder | examples/filemanager.c:74-84 | ".." comes first and every directory comes before every file |
| FileManager.FilledIsCapped | commctl/columnview.c:112-125 | adding items one at a time keeps the first 256 of them, each stored |
| FileManager.FilledConcat | examples/filemanager.c:78-84 | adding two runs of items is adding the first and then the second |
| FileManager.LastSlash | examples/filemanager.c:135 | `strrchr`: the last '/' of the path, or -1 when there is none |
| FileManager.Joined | examples/filemanager.c:133 | `snprintf` into 512 bytes: a prefix of path/name of at most 511 characters, all of it when it fits |
| FileManager.Parent | examples/filemanager.c:134-140 | ".." cuts the path at its last '/' when that is not the first character, and gives "/" otherwise |
| FileManager.ParentOfRoot | examples/filemanager.c:136-140 | ".." at the root stays at the root |
| FileManager.EnterThenLeave | examples/filemanager.c:133-144 | entering a directory and then ".." comes back, as long as the joined path fits |
| FileManager.LastSlashAt | examples/filemanager.c:135 | the last '/' is found where it is |
| FileManager.EnterFromRoot | examples/filemanager.c:133 | from the root, entering a directory gives "//name" |
| FileManager.Browser.constructor | examples/filemanager.c:159-166 | WM_CREATE starts at the directory `getcwd` reports |
| FileManager.Browser.Load | examples/filemanager.c:70-88 | `load_directory` changes nothing when the directory does not open; otherwise the view holds "..", the directories and then the files, capped at 256, with nothing selected |
| FileManager.Browser.AddEntries | examples/filemanager.c:53-68 | `add_entries` adds the entries of its pass in `readdir` order, keeping the selection |
| FileManager.Browser.AddOne | examples/filemanager.c:56-66 | one entry is added exactly when it belongs to the pass |
| FileManager.Browser.Navigate | examples/filemanager.c:131-153 | `navigate_to`: ".." goes up and reloads, a directory is entered and reloaded, a script is launched at the joined path, anything else is ignored |
| TestEnv.FindCall | tests/test_env.c:102-109 | the first entry recording that window, message and wparam, and -1 exactly when there is none |
| TestEnv.FindMsg | tests/test_env.c:63-70 | the first entry with that message kind, and -1 exactly when there is none |
| TestEnv.CountMsg | tests/test_env.c:78-86 | the count never exceeds the number of entries |
| TestEnv.FoundIffCounted | tests/test_env.c:73-86 | a message is found exactly when it is counted at least once |
| TestEnv.RecordedKeeps | tests/test_env.c:89-118 | hooking keeps the entries distinct, never shrinks the log, grows it by at most one and never past 100 |
| TestEnv.RepeatCountedOnce | tests/test_env.c:101-117 | a repeated call adds one entry, whose call count becomes 2, and is counted once |
| TestEnv.OtherWparamCountedApart | tests/test_env.c:101-117 | the same message kind with another wparam is a separate entry and is counted separately |
| TestEnv.Env.constructor | tests/test_env.c:12-16 | `test_env_init`: a zeroed table, no entries and tracking off |
| TestEnv.Env.EnableTracking | tests/test_env.c:25-41 | turning tracking on registers the hook on the eleven tracked kinds, every time; turning it off registers nothing |
| TestEnv.Env.ClearEvents | tests/test_env.c:44-47 | no entries and a zeroed table |
| TestEnv.Env.Shutdown | tests/test_env.c:19-22 | no entries and tracking off |
| TestEnv.Env.EventCount | tests/test_env.c:50-52 | the number of entries |
| TestEnv.Env.GetEvent | tests/test_env.c:55-60 | the entry at index exactly when index is within [0, count) |
| TestEnv.Env.FindEvent | tests/test_env.c:63-70 | the loop finds what FindMsg says |
| TestEnv.Env.WasMessageSent | tests/test_env.c:73-75 | true exactly when the message is counted at least once |
| TestEnv.Env.CountMessage | tests/test_env.c:78-86 | the loop counts what CountMsg says |
| TestEnv.Env.Hook | tests/test_env.c:89-118 | `test_env_hook_callback` updates the log as Recorded says and leaves the unused slots alone |
| TestEnv.Env.FindSame | tests/test_env.c:102-109 | the duplicate search finds what FindCall says |

## Left out

- Painting is outside this model: the OpenGL calls, textures, the font atlas upload, icons and alpha fading. What is modelled is the arithmetic (stencil rectangles, title bars, glyph widths) and the ids and texts a paint would use.
- The event loop is outside this model: `dispatch_message`'s translation of SDL events into messages, `show_dialog`, the main loops, and the window dragging and resizing state (`_dragging`, `_resizing`) of kernel/event.c. The event.c pieces that are modelled are the hit-test, `handle_mouse`, tab-stop traversal and `move_to_top`.
- Window procedures are not run. What a procedure returns for a message is the parameter `procs` of the desktop; what it does besides is not modelled there. The controls are modelled on their own, each over a `Control.Win` record holding the window fields it uses, separate from the desktop's arena.
- Hook callbacks are not run either. `Desktop.Desktop.Send` returns the hooks it would call, in order.
- Memory allocation is taken to succeed. This covers:
  - `malloc` of windows, hooks and control data (`allocate_window_data`);
  - `realloc` in the terminals' text buffers.
  - The one exception is `TextBuf.StrCat`, which models a failed reallocation.
  - The `free` calls of WM_DESTROY handlers are not modelled.
- Terminal.Terminal.Write: takes the reallocation of the text buffer to succeed, since `f_strcat`'s failure path is modelled in TextBuf.StrCat only.
- The Lua mode of commctl/terminal.c is not part of this model. This covers `create_lua_state`, `continue_coroutine` and the script-file loading path. The command mode is modelled.
- How a script resumption ends in examples/process.h is a parameter, because the embedded interpreter is not part of this model.
- Time (`SDL_GetTicks`) is a parameter, and so are the directory entries `readdir`/`stat` return and `getcwd`'s result.
  - `getcwd` failing is not modelled.
  - Neither is the icon colour beyond its chosen index.
- `deregister_window_hook` is not part of this model, so neither is the tray's own WM_DESTROY, which calls it. Its definition is not among the sources modelled. Registration is `Desktop.Desktop.RegisterHook`.
- Desktop.Desktop.Destroy: unlinks a child from its parent's `children`. `destroy_window` itself does not; the callers that destroy a child (the tray) unlink it first. The model therefore states the arena after both steps.
- Queue.MessageQueue.Flush: requires that the messages posted while the queue drains cannot overrun the ring (`Count() + Room(Count(), bound) < 256`, with `bound` the posts per delivery). Losing messages to wrap-around during a flush is not modelled. Wrap-around on an ordinary post is modelled (Queue.WrapAround).
- Tree.FindPrevTabStop: the source loop is unbounded, so the model walks at most `fuel` steps and answers None when the fuel runs out. Its contract speaks about the answer it gives with fuel left.
- Walks of the window tree terminate by a ghost `Shape` (a depth for each window), which the desktop invariant maintains. Cyclic trees, which the source would loop on, are excluded by it.
- Text.FontAtlas.StrnWidth: requires the measured length to lie within the string. The loop of `strnwidth` does not stop at a NUL, so reading past the string is not modelled.
- TextEdit.EditProc: requires non-empty input for WM_TEXTINPUT. An empty string would store its NUL at the caret and cut the title there.
- ComboBox.Combo.GetLbText: a 64-character entry is kept without its terminating NUL, and `strcpy` would read past it. The model returns the 64 characters.
- Checkbox.CheckboxProc: the BM_GETCHECK/BM_SETCHECK messages the checkbox sends itself are applied directly, without running the hooks on them.
- Draw.Repaint: a procedure that answers WM_PAINTSTENCIL itself is taken to leave the stencil as it was; what it paints instead is not modelled.
- Draw.RepaintIsLastPainter: inherits that reading of a non-zero answer from Draw.Repaint.
- Windows.Wheel: uses the corrected horizontal scroll (Windows.HScrollAccumulates, third Findings row). The offset the source computes is stated by Windows.HScrollAsWrittenResets.
- Desktop.Desktop.Send: uses the corrected horizontal scroll of Windows.Wheel (third Findings row) for WM_WHEEL.
- Desktop.Desktop.CreateFromDef: creates the control with the computed frame (Windows.LayoutSizes, fifth Findings row), not with the definition's own width and height as `create_window2` does.
- Desktop.Desktop.LoadWindowChildren: the children get the computed sizes of the fifth Findings row, not the definitions' own. Windows.LayoutAsWritten states the frames the source creates.
- Desktop.Desktop.PlaceNext: keeps the corrected layout of the fifth Findings row.
- Desktop.Desktop.AddControl: creates the control with the corrected size of the fifth Findings row.
- Desktop.Desktop.Unlist: uses the crash-free Windows.RemoveFromGlobalList (second Findings row) and the corrected Hooks.HookList.Remove (first Findings row). As written, an emptied global list crashes and a window with three hooks of one kind keeps a freed one.
- Desktop.Desktop.Detach: removes h through Desktop.Desktop.Unlist, so it uses the same corrected removals.
- Desktop.Desktop.Destroy: removes every window of the subtree through Desktop.Desktop.Unlist, so it uses the corrected removals of the first two Findings rows.
- Desktop.Desktop.Dismantle: destroys the children with the corrected removals of the first two Findings rows.
- Desktop.Desktop.ClearChildren: destroys the children with the corrected removals of the first two Findings rows.
- Desktop.Desktop.DestroyFirstChild: destroys the child with the corrected removals of the first two Findings rows.
- FileManager.Browser.Navigate: takes the double-clicked item itself. The WM_COMMAND handler of examples/filemanager.c passes CVN_DBLCLK's `lparam` to `navigate_to` as an item pointer, but commctl/columnview.c fills that `lparam` with the item's index cast to a pointer. That handoff is not modelled.
- `result_t` is modelled as `int`, and pointers passed in `lparam` as values or opaque numbers.

## Findings

| source | as written | input that shows it | evidently intended | confidence | as-written member | corrected member |
|---|---|---|---|---|---|---|
| user/message.c:66-80 | `remove_from_global_hooks` unlinks the first matching hook of the tail and frees every later match, but keeps unlinking through the pointer it already moved past | hook list [other, win, win] for one message kind, then removing win | every hook of the window unlinked and freed, leaving [other] | high, not executed | Hooks.RemoveAsWrittenLeavesFreedHook | Hooks.HookList.Remove |
| user/window.c:122-133 | `remove_from_global_list` reads `windows->next` without checking that `windows` is non-NULL | destroying the only top-level window while it has a child: the list is emptied first, then destroying the child reads the NULL head | an empty list left empty | medium, not executed | Windows.DestroyLastTopLevelCrashes | Windows.RemoveFromGlobalList |
| user/message.c:153-155 | the horizontal WM_WHEEL default stores `MIN(0, scroll + delta)` into a `uint16_t` | from offset 0, two wheel steps of 5 to the left give 65531 then 0; any step to the right gives 0 | the offset clamped at 0 like the vertical axis, so that steps accumulate | high, not executed | Windows.HScrollAsWrittenResets | Windows.HScrollAccumulates |
| user/text.c:146-151 | `strnwidth` indexes the glyph tables with a plain (signed) `char` | a title holding the icon byte 0xE0, which the icon helpers of user/draw_impl.c draw | the byte read as unsigned, so that glyphs 128..255 are measured | medium, not executed | Text.IconByteUnmeasurable | Text.FontAtlas.StrnWidth |
| user/window.c:270-275 | `create_window2` creates the control with `def->w` and `def->h` rather than the width and height `load_window_children` computed | a definition with w = -1 and h = 0 in a window 100 pixels wide | the creation rectangle 92x10; as written it is -1x0, so that a push button ends strwidth(title)+6 wide instead of max(92, strwidth(title)+6), 13 high either way | high, not executed | Windows.LayoutAsWrittenDropsSize | Windows.LayoutSizes |
