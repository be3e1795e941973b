/**
 * filemanager.c: a column view that lists a directory and moves
 * through the file system on double-clicks. The directory itself is a
 * parameter: the entries `readdir` returns, in its order, each with what
 * `stat` said (None when `stat` failed, else whether it is a directory),
 * and whether `opendir` succeeded (`found`).
 */
module FileManager {
  import opened Wrappers
  import opened Words
  import opened Strings
  import opened ColumnView

  const ICON_FOLDER: int := 5
  const ICON_FILE: int := 6
  const ICON_UP: int := 7
  const COLOR_FOLDER: U32 := 0xffa0d000
  const COLOR_SCRIPT: U32 := 0xff00a0d0
  /** COLOR_TEXT_NORMAL and COLOR_TEXT_DISABLED of user/messages.h */
  const COLOR_TEXT_NORMAL: U32 := 0xffc0c0c0
  const COLOR_TEXT_DISABLED: U32 := 0xff808080
  /** `sizeof(filemanager_data_t.path)` */
  const PATH_SIZE: int := 512

  /** A directory entry: its name and what `stat` reported (Some(is a directory), or None). */
  datatype DirEntry = DirEntry(name: string, stat: Option<bool>)

  predicate Hidden(name: string) {
    |name| > 0 && name[0] == '.'
  }

  /**
   * `get_file_color`: names starting with '.' are dimmed, even directories;
   * then directories, then names with ".lua" anywhere in them.
   */
  function FileColor(name: string, isDir: bool): (c: U32)
    ensures c == COLOR_TEXT_DISABLED <==> Hidden(name)
    ensures c == COLOR_FOLDER <==> !Hidden(name) && isDir
    ensures c == COLOR_SCRIPT <==> !Hidden(name) && !isDir && HasSubstring(name, ".lua")
    ensures c == COLOR_TEXT_NORMAL <==> !Hidden(name) && !isDir && !HasSubstring(name, ".lua")
  {
    if Hidden(name) then COLOR_TEXT_DISABLED
    else if isDir then COLOR_FOLDER
    else if HasSubstring(name, ".lua") then COLOR_SCRIPT
    else COLOR_TEXT_NORMAL
  }

  /** `get_file_icon` */
  function FileIcon(isDir: bool): (i: int)
    ensures i == ICON_FOLDER <==> isDir
    ensures i == ICON_FILE <==> !isDir
  {
    if isDir then ICON_FOLDER else ICON_FILE
  }

  /** The item `add_entries` adds for an entry; `userdata` records whether it is a directory. */
  function EntryItem(name: string, isDir: bool): Item {
    Item(name, FileIcon(isDir), FileColor(name, isDir), if isDir then 1 else 0)
  }

  /** Whether `add_entries` in the given pass adds the entry. */
  predicate Listed(e: DirEntry, dirsOnly: bool) {
    e.name != "." && e.name != ".." && e.stat == Some(dirsOnly)
  }

  /** The items one pass of `add_entries` adds, in `readdir` order. */
  function Added(es: seq<DirEntry>, dirsOnly: bool): (r: seq<Item>)
    ensures |r| <= |es|
    ensures forall k | 0 <= k < |r| :: r[k].userdata == (if dirsOnly then 1 else 0)
  {
    if es == [] then []
    else
      var e := es[|es| - 1];
      Added(es[..|es| - 1], dirsOnly) + if Listed(e, dirsOnly) then [EntryItem(e.name, dirsOnly)] else []
  }

  const UP_ITEM: Item := Item("..", ICON_UP, COLOR_FOLDER, 0)

  /** What `load_directory` sends: "..", then the directories, then the files. */
  function Listing(es: seq<DirEntry>): seq<Item> {
    [UP_ITEM] + Added(es, true) + Added(es, false)
  }

  /** Every entry other than "." and ".." that `stat` could read is listed once per pass it belongs to. */
  lemma {:induction false} EntryListed(es: seq<DirEntry>, i: int)
    requires 0 <= i < |es| && Listed(es[i], es[i].stat == Some(true))
    ensures EntryItem(es[i].name, es[i].stat == Some(true)) in Added(es, es[i].stat == Some(true))
    decreases |es|
  {
    if i < |es| - 1 {
      EntryListed(es[..|es| - 1], i);
    }
  }

  /** In the listing, ".." comes first and every directory comes before every file. */
  lemma ListingOrder(es: seq<DirEntry>, i: int, j: int)
    requires 1 <= i < j < |Listing(es)| && Listing(es)[j].userdata == 1
    ensures Listing(es)[0] == UP_ITEM && Listing(es)[i].userdata == 1
  {
    var ds := Added(es, true);
    assert j < 1 + |ds|;
    assert Listing(es)[i] == ds[i - 1];
  }

  /** The view's copy of a sequence of CVM_ADDITEM calls, one at a time: an item is dropped once 256 are stored. */
  function Filled(cur: seq<Item>, more: seq<Item>): (r: seq<Item>)
  {
    if more == [] then cur
    else
      var f := Filled(cur, more[..|more| - 1]);
      if |f| < MAX_COLUMNVIEW_ITEMS then f + [Stored(more[|more| - 1])] else f
  }

  function StoredAll(s: seq<Item>): (r: seq<Item>)
    ensures |r| == |s| && forall k | 0 <= k < |s| :: r[k] == Stored(s[k])
  {
    if s == [] then [] else StoredAll(s[..|s| - 1]) + [Stored(s[|s| - 1])]
  }

  function Capped(s: seq<Item>): (r: seq<Item>)
    ensures |r| <= MAX_COLUMNVIEW_ITEMS && r <= s
  {
    if |s| <= MAX_COLUMNVIEW_ITEMS then s else s[..MAX_COLUMNVIEW_ITEMS]
  }

  /** Adding items one at a time keeps the first 256 of all of them, each stored. */
  lemma {:induction false} FilledIsCapped(cur: seq<Item>, more: seq<Item>)
    requires |cur| <= MAX_COLUMNVIEW_ITEMS
    ensures Filled(cur, more) == Capped(cur + StoredAll(more))
    decreases |more|
  {
    if more != [] {
      var m := more[..|more| - 1];
      FilledIsCapped(cur, m);
      var f := Filled(cur, m);
      assert cur + StoredAll(more) == (cur + StoredAll(m)) + [Stored(more[|more| - 1])];
      if |cur + StoredAll(m)| < MAX_COLUMNVIEW_ITEMS {
        assert f == cur + StoredAll(m);
      } else {
        assert |f| == MAX_COLUMNVIEW_ITEMS;
        assert (cur + StoredAll(more))[..MAX_COLUMNVIEW_ITEMS] == (cur + StoredAll(m))[..MAX_COLUMNVIEW_ITEMS];
      }
    }
  }

  lemma {:induction false} FilledConcat(cur: seq<Item>, a: seq<Item>, b: seq<Item>)
    ensures Filled(cur, a + b) == Filled(Filled(cur, a), b)
    decreases |b|
  {
    if b == [] {
      assert a + b == a;
    } else {
      assert (a + b)[..|a + b| - 1] == a + b[..|b| - 1];
      FilledConcat(cur, a, b[..|b| - 1]);
    }
  }

  /** The index of the last '/' in s, or -1 (`strrchr`). */
  function LastSlash(s: string): (k: int)
    ensures -1 <= k < |s|
    ensures k >= 0 ==> s[k] == '/'
    ensures forall i | k < i < |s| :: s[i] != '/'
  {
    if s == [] then -1
    else if s[|s| - 1] == '/' then |s| - 1
    else LastSlash(s[..|s| - 1])
  }

  /** `snprintf(newpath, 512, "%s/%s", path, name)`: at most 511 characters. */
  function Joined(path: string, name: string): (r: string)
    ensures |r| < PATH_SIZE && r <= path + "/" + name
    ensures |path| + 1 + |name| < PATH_SIZE ==> r == path + "/" + name
  {
    var s := path + "/" + name;
    if |s| < PATH_SIZE then s else s[..PATH_SIZE - 1]
  }

  /**
   * ".." : the path is cut at its last '/' when that is not the first
   * character; otherwise it becomes "/".
   */
  function Parent(path: string): (r: string)
    ensures |r| <= |path| || r == "/"
    ensures LastSlash(path) > 0 ==> r == path[..LastSlash(path)]
    ensures LastSlash(path) <= 0 ==> r == "/"
  {
    var k := LastSlash(path);
    if k > 0 then path[..k] else "/"
  }

  /** ".." at the root stays at the root. */
  lemma ParentOfRoot()
    ensures Parent("/") == "/"
  {
    assert LastSlash("/") == 0;
  }

  /** Entering a directory and then ".." comes back, as long as the joined path fits. */
  lemma EnterThenLeave(path: string, name: string)
    requires |path| >= 1 && |path| + 1 + |name| < PATH_SIZE
    requires forall i | 0 <= i < |name| :: name[i] != '/'
    ensures Parent(Joined(path, name)) == path
  {
    var s := path + "/" + name;
    assert s[|path|] == '/';
    assert forall i | |path| < i < |s| :: s[i] == name[i - |path| - 1];
    assert LastSlash(s) == |path| by {
      LastSlashAt(s, |path|);
    }
    assert s[..|path|] == path;
  }

  lemma {:induction false} LastSlashAt(s: string, k: int)
    requires 0 <= k < |s| && s[k] == '/' && forall i | k < i < |s| :: s[i] != '/'
    ensures LastSlash(s) == k
    decreases |s|
  {
    if k < |s| - 1 {
      LastSlashAt(s[..|s| - 1], k);
    }
  }

  /** From the root, entering a directory gives "//name". */
  lemma EnterFromRoot(name: string)
    requires |name| < PATH_SIZE - 2
    ensures Joined("/", name) == "//" + name
  {
  }

  /** What a double-click leads to besides the new listing. */
  datatype Outcome =
    | Reloaded
    /** A script window is found on the joined path (`create_window` + `show_window`). */
    | Launched(script: string)
    | Ignored

  /** The data of the file manager window: the current directory. */
  class Browser {
    var path: string

    ghost predicate Valid()
      reads this
    {
      |path| < PATH_SIZE
    }

    /** WM_CREATE: the current directory as `getcwd` reports it. */
    constructor (cwd: string)
      requires |cwd| < PATH_SIZE
      ensures Valid() && path == cwd
    {
      path := cwd;
    }

    /**
     * `load_directory`: when the directory opens, the view is cleared and
     * gets "..", the directories and then the files; otherwise nothing
     * changes.
     */
    method Load(view: View, found: bool, es: seq<DirEntry>)
      requires view.Valid()
      modifies view`count, view`selected, view`lastClickTime, view`lastClickIndex, view.items
      ensures view.Valid()
      ensures !found ==> view.Entries() == old(view.Entries())
      ensures found ==> view.Entries() == Capped(StoredAll(Listing(es))) && view.selected == -1
    {
      if !found {
        return;
      }
      var _ := view.Clear();
      var _, _ := view.AddItem(Some(UP_ITEM));
      assert view.Entries() == Filled([], [UP_ITEM]);
      AddEntries(view, es, true);
      AddEntries(view, es, false);
      FilledConcat([], [UP_ITEM], Added(es, true));
      FilledConcat([], [UP_ITEM] + Added(es, true), Added(es, false));
      FilledIsCapped([], Listing(es));
      assert [] + StoredAll(Listing(es)) == StoredAll(Listing(es));
    }

    /** `add_entries`: one pass over the directory, adding the entries of one kind. */
    static method AddEntries(view: View, es: seq<DirEntry>, dirsOnly: bool)
      requires view.Valid()
      modifies view`count, view.items
      ensures view.Valid() && view.selected == old(view.selected)
      ensures view.Entries() == Filled(old(view.Entries()), Added(es, dirsOnly))
    {
      ghost var start := view.Entries();
      var i := 0;
      while i < |es|
        invariant 0 <= i <= |es| && view.Valid() && view.selected == old(view.selected)
        invariant view.Entries() == Filled(start, Added(es[..i], dirsOnly))
      {
        AddOne(view, es[i], dirsOnly);
        assert es[..i + 1][..i] == es[..i];
        FilledConcat(start, Added(es[..i], dirsOnly), if Listed(es[i], dirsOnly) then [EntryItem(es[i].name, dirsOnly)] else []);
        i := i + 1;
      }
      assert es[..i] == es;
    }

    /** The body of the `readdir` loop: the entry is added when it belongs to this pass. */
    static method AddOne(view: View, e: DirEntry, dirsOnly: bool)
      requires view.Valid()
      modifies view`count, view.items
      ensures view.Valid() && view.selected == old(view.selected)
      ensures view.Entries() == Filled(old(view.Entries()), if Listed(e, dirsOnly) then [EntryItem(e.name, dirsOnly)] else [])
    {
      if e.name != "." && e.name != ".." && e.stat == Some(dirsOnly) {
        var _, _ := view.AddItem(Some(EntryItem(e.name, dirsOnly)));
        assert [EntryItem(e.name, dirsOnly)][..0] == [];
      }
    }

    /**
     * `navigate_to`: ".." goes up, a directory is entered, a script is
     * launched, anything else is ignored; `found` and `es` describe the
     * directory loaded afterwards.
     */
    method Navigate(view: View, item: Item, found: bool, es: seq<DirEntry>) returns (o: Outcome)
      requires Valid() && view.Valid()
      modifies this, view`count, view`selected, view`lastClickTime, view`lastClickIndex, view.items
      ensures Valid() && view.Valid()
      ensures item.text == ".." ==> path == Parent(old(path)) && o == Reloaded
      ensures item.text != ".." && item.userdata != 0 ==> path == Joined(old(path), item.text) && o == Reloaded
      ensures item.text != ".." && item.userdata == 0 ==> path == old(path) && view.Entries() == old(view.Entries())
      ensures item.text != ".." && item.userdata == 0 && item.color == COLOR_SCRIPT ==> o == Launched(Joined(old(path), item.text))
      ensures item.text != ".." && item.userdata == 0 && item.color != COLOR_SCRIPT ==> o == Ignored
      ensures o == Reloaded && found ==> view.Entries() == Capped(StoredAll(Listing(es)))
      ensures o == Reloaded && !found ==> view.Entries() == old(view.Entries())
    {
      var newpath := Joined(path, item.text);
      if item.text == ".." {
        path := Parent(path);
        Load(view, found, es);
        return Reloaded;
      } else if item.userdata != 0 {
        path := newpath;
        Load(view, found, es);
        return Reloaded;
      } else if item.color == COLOR_SCRIPT {
        return Launched(newpath);
      }
      return Ignored;
    }
  }
}
