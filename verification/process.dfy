/**
 * process.h: a terminal window that runs a script and feeds it
 * the lines typed into it. The script itself (a coroutine of an embedded
 * interpreter) is outside this model: how each resumption ends is a
 * parameter. What is modelled is the transcript kept in a growable text
 * buffer and the input line edited one WM_KEYDOWN at a time.
 */
module Process {
  import opened Wrappers
  import opened Words
  import TextBuf

  const INPUT_SIZE: int := 256
  const INITIALIZED: string := "Terminal initialized\n"
  const FINISHED: string := "\nProcess finished\n"

  /** How a resumption of the script ended: returned, yielded for input, or raised an error. */
  datatype Resume = Done | Yielded | Failed(msg: string)

  /** `(char)wparam`: the low byte of the parameter, read as a signed char. */
  function CharOf(w: int): (c: int)
    ensures -128 <= c < 128 && (w - c) % 256 == 0
  {
    var b := w % 256;
    if b < 128 then b else b - 256
  }

  /** What the window shows: the transcript, the line being typed, and whether the script waits for it. */
  datatype Snapshot = Snapshot(text: string, input: string, waiting: bool)

  /** The outcome of a resumption, written after the transcript; `prompt` marks a yield. */
  function Resumed(s: Snapshot, res: Resume, prompt: string): (r: Snapshot)
    ensures r.input == s.input
    ensures r.waiting <==> res.Yielded?
  {
    match res
    case Done => s.(text := s.text + FINISHED, waiting := false)
    case Yielded => s.(text := s.text + prompt, waiting := true)
    case Failed(msg) => s.(text := s.text + "Error: " + msg + "\n", waiting := false)
  }

  /**
   * WM_CREATE after the interpreter is set up: "Terminal initialized", then
   * either the error of loading the script or the outcome of its first run.
   */
  function Started(loadError: Option<string>, res: Resume): Snapshot {
    var s := Snapshot(INITIALIZED, "", false);
    match loadError
    case Some(msg) => s.(text := s.text + "Error loading file: " + msg + "\n")
    case None => Resumed(s, res, "\n> ")
  }

  datatype Reply = Reply(handled: bool, snapshot: Snapshot)

  /**
   * WM_KEYDOWN with parameter w; `res` is how the script's resumption ends
   * if this key hands it a line.
   */
  function Key(s: Snapshot, w: int, res: Resume): Reply {
    var c := CharOf(w);
    if !s.waiting then Reply(false, s)
    else if c == 13 || c == 10 then
      Reply(true, Resumed(s.(text := s.text + s.input + "\n"), res, "> ").(input := ""))
    else if c == 8 || c == 127 then
      Reply(true, if |s.input| > 0 then s.(input := s.input[..|s.input| - 1]) else s)
    else if 32 <= c < 127 then
      Reply(true, if |s.input| < INPUT_SIZE - 1 then s.(input := s.input + [c as char]) else s)
    else Reply(false, s)
  }

  /** Only the low byte of the parameter matters. */
  lemma LowByteOnly(s: Snapshot, w: int, res: Resume)
    ensures Key(s, w, res) == Key(s, w % 256, res)
  {
    assert CharOf(w) == CharOf(w % 256);
  }

  /**
   * A key is handled exactly while the script waits and the key is Return,
   * a line feed, a backspace, DEL or printable; a key not handled changes nothing.
   */
  lemma HandledKeys(s: Snapshot, w: int, res: Resume)
    ensures var c := CharOf(w);
      Key(s, w, res).handled <==> s.waiting && (c == 13 || c == 10 || c == 8 || 32 <= c <= 127)
    ensures !Key(s, w, res).handled ==> Key(s, w, res).snapshot == s
  {
  }

  /** Bytes 128..255 are negative as a signed char and never handled. */
  lemma HighBytesIgnored(s: Snapshot, w: int, res: Resume)
    requires 128 <= w % 256
    ensures Key(s, w, res) == Reply(false, s)
  {
  }

  /** The transcript only grows: every key keeps what was shown before as a prefix. */
  lemma TranscriptGrows(s: Snapshot, w: int, res: Resume)
    ensures s.text <= Key(s, w, res).snapshot.text
  {
    var c := CharOf(w);
    if s.waiting && (c == 13 || c == 10) {
      var t := s.text + s.input + "\n";
      assert t[..|s.text|] == s.text;
      var u := Resumed(s.(text := t), res, "> ").text;
      match res
      case Done => assert u[..|t|] == t;
      case Yielded => assert u[..|t|] == t;
      case Failed(msg) => assert u[..|t|] == t;
    }
  }

  /** The input line stays shorter than its 256-byte buffer. */
  lemma InputBounded(s: Snapshot, w: int, res: Resume)
    requires |s.input| < INPUT_SIZE
    ensures |Key(s, w, res).snapshot.input| < INPUT_SIZE
  {
  }

  /**
   * Return or a line feed echoes the line and a newline, then the outcome;
   * the line is cleared and the script waits again only if it yielded.
   */
  lemma EnterHandsOver(s: Snapshot, w: int, res: Resume)
    requires s.waiting && (CharOf(w) == 13 || CharOf(w) == 10)
    ensures var r := Key(s, w, res).snapshot;
      && r.input == ""
      && (r.waiting <==> res.Yielded?)
      && r.text == s.text + s.input + "\n" + (match res
        case Done => FINISHED
        case Yielded => "> "
        case Failed(msg) => "Error: " + msg + "\n")
  {
  }

  /** Typing a printable character into a line with room, then a backspace, restores the line. */
  lemma TypeThenErase(s: Snapshot, w: int, res: Resume, res': Resume)
    requires s.waiting && |s.input| < INPUT_SIZE - 1 && 32 <= CharOf(w) < 127
    ensures Key(s, w, res).handled
    ensures Key(Key(s, w, res).snapshot, 8, res') == Reply(true, s)
  {
    assert (s.input + [CharOf(w) as char])[..|s.input|] == s.input;
  }

  /** Once the script no longer waits, keys are not handled until it is started again. */
  lemma FinishedIsDeaf(s: Snapshot, w: int, res: Resume, w': int, res': Resume)
    requires s.waiting && (CharOf(w) == 13 || CharOf(w) == 10) && !res.Yielded?
    ensures Key(Key(s, w, res).snapshot, w', res') == Reply(false, Key(s, w, res).snapshot)
  {
  }

  /** The state of the window: its transcript buffer, the input line and the waiting flag. */
  class Terminal {
    var textbuf: TextBuf.Buffer
    var input: string
    var waiting: bool

    ghost predicate Valid()
      reads this, textbuf
    {
      textbuf.Valid() && |input| < INPUT_SIZE
    }

    ghost function Snap(): Snapshot
      reads this, textbuf
    {
      Snapshot(textbuf.data, input, waiting)
    }

    /** WM_CREATE: a fresh buffer, then the load error or the outcome of the first run. */
    constructor (loadError: Option<string>, res: Resume)
      ensures Valid() && fresh(textbuf)
      ensures Snap() == Started(loadError, res)
    {
      var b := new TextBuf.Buffer();
      b.Append(INITIALIZED);
      textbuf := b;
      input := "";
      waiting := false;
      new;
      ghost var s0 := Snapshot(INITIALIZED, "", false);
      assert Snap() == s0;
      if loadError.Some? {
        Report("Error loading file: ", loadError.value);
      } else {
        Resume(res, "\n> ");
      }
    }

    /** The outcome of a resumption, appended to the transcript. */
    method Resume(res: Resume, prompt: string)
      requires Valid()
      modifies this, textbuf
      ensures Valid() && textbuf == old(textbuf)
      ensures Snap() == Resumed(old(Snap()), res, prompt)
    {
      match res
      case Done =>
        textbuf.Append(FINISHED);
        waiting := false;
      case Yielded =>
        textbuf.Append(prompt);
        waiting := true;
      case Failed(msg) =>
        Report("Error: ", msg);
        waiting := false;
    }

    /** An error line: its heading, the message and a newline. */
    method Report(heading: string, msg: string)
      requires Valid()
      modifies textbuf
      ensures Valid()
      ensures textbuf.data == old(textbuf.data) + heading + msg + "\n"
    {
      textbuf.Append(heading);
      textbuf.Append(msg);
      textbuf.Append("\n");
    }

    /** WM_KEYDOWN: line editing, and Return hands the line to the script. */
    method KeyDown(w: U32, res: Resume) returns (handled: bool)
      requires Valid()
      modifies this, textbuf
      ensures Valid() && textbuf == old(textbuf)
      ensures Reply(handled, Snap()) == Key(old(Snap()), w, res)
    {
      if !waiting {
        return false;
      }
      var c := CharOf(w);
      if c == 13 || c == 10 {
        textbuf.Append(input);
        textbuf.Append("\n");
        Resume(res, "> ");
        input := "";
        return true;
      } else if c == 8 || c == 127 {
        if |input| > 0 {
          input := input[..|input| - 1];
        }
        return true;
      } else if 32 <= c < 127 {
        if |input| < INPUT_SIZE - 1 {
          input := input + [c as char];
        }
        return true;
      }
      return false;
    }
  }
}
