/**
 * commctl/terminal.c in command mode (no Lua script): a text buffer the
 * window shows, an input line of at most 255 characters, and a table of
 * three commands run when Return is pressed. `waiting` and `finished`
 * stand for `waiting_for_input` and `process_finished`.
 */
module Terminal {
  import opened Wrappers
  import opened Words
  import opened User
  import opened Control
  import opened TextBuf
  import opened Strings

  const PROMPT: string := "Terminal> "
  const BANNER: string := "Terminal - Command Mode\nType 'help' for available commands\n"
  const EXITING: string := "Exiting terminal...\n"
  const HELP_HEADER: string := "Available commands:\n"
  const UNKNOWN: string := "Unknown command: "
  const HINT: string := "\nType 'help' for a list of commands.\n"
  /** `sizeof(input_buffer)`: the line holds at most 255 characters and the NUL. */
  const INPUT_SIZE: int := 256

  datatype Command = Exit | Help | Clear
  datatype Entry = Entry(name: string, help: string, command: Command)

  /** `terminal_commands`, in table order. */
  const COMMANDS: seq<Entry> := [
    Entry("exit", "Closes current terminal instance", Exit),
    Entry("help", "Lists available commands", Help),
    Entry("clear", "Clears the terminal screen", Clear)
  ]

  /** The command line with its leading spaces and tabs skipped (trailing ones are kept). */
  function Trimmed(s: string): (r: string)
    ensures |r| <= |s| && r == s[|s| - |r|..]
    ensures r == [] || (r[0] != ' ' && r[0] != '\t')
    ensures forall i | 0 <= i < |s| - |r| :: s[i] == ' ' || s[i] == '\t'
  {
    if s != [] && (s[0] == ' ' || s[0] == '\t') then Trimmed(s[1..]) else s
  }

  /** The index of the first table entry named exactly `name`, or -1. */
  function Find(table: seq<Entry>, name: string): (i: int)
    ensures -1 <= i < |table|
    ensures i == -1 <==> forall j | 0 <= j < |table| :: table[j].name != name
    ensures i >= 0 ==> table[i].name == name && forall j | 0 <= j < i :: table[j].name != name
  {
    if table == [] then -1
    else if table[0].name == name then 0
    else
      var k := Find(table[1..], name);
      if k == -1 then -1 else k + 1
  }

  /** The three names, and nothing else, are found in the table. */
  lemma FindCommand(c: string)
    ensures Find(COMMANDS, c) == if c == "exit" then 0 else if c == "help" then 1 else if c == "clear" then 2 else -1
  {
    assert COMMANDS[0].name == "exit" && COMMANDS[1].name == "help" && COMMANDS[2].name == "clear";
  }

  /** One line of the help listing. */
  function Line(e: Entry): string {
    "  " + e.name + " - " + e.help + "\n"
  }

  function Lines(table: seq<Entry>): string {
    if table == [] then "" else Lines(table[..|table| - 1]) + Line(table[|table| - 1])
  }

  lemma LinesSnoc(table: seq<Entry>, i: int)
    requires 0 <= i < |table|
    ensures Lines(table[..i + 1]) == Lines(table[..i]) + Line(table[i])
  {
    assert table[..i + 1][..i] == table[..i];
  }

  /** The output of `cmd_help` over a command table. */
  function Listing(table: seq<Entry>): string {
    HELP_HEADER + Lines(table)
  }

  /** What `help` prints: the listing of the command table. */
  const HELP_TEXT: string := Listing(COMMANDS)

  /** The help listing holds the line of every table entry, and so its name. */
  lemma {:induction false} LinesList(table: seq<Entry>, i: int)
    requires 0 <= i < |table|
    ensures HasSubstring(Lines(table), Line(table[i]))
    ensures HasSubstring(Lines(table), table[i].name)
  {
    var n := |table| - 1;
    if i < n {
      LinesList(table[..n], i);
      assert table[..n][i] == table[i];
      assert Lines(table) == "" + Lines(table[..n]) + Line(table[n]);
      ContainsWithin("", Lines(table[..n]), Line(table[n]), Line(table[i]));
      ContainsWithin("", Lines(table[..n]), Line(table[n]), table[i].name);
    } else {
      assert Lines(table) == Lines(table[..n]) + Line(table[i]) + "";
      ContainsAt(Line(table[i]), Line(table[i]), 0);
      ContainsWithin(Lines(table[..n]), Line(table[i]), "", Line(table[i]));
      assert Line(table[i])[2..2 + |table[i].name|] == table[i].name;
      ContainsAt(Line(table[i]), table[i].name, 2);
      ContainsTrans(Lines(table), Line(table[i]), table[i].name);
    }
  }

  /** What the terminal shows and holds: buffer text, input line and the two flags. */
  datatype Session = Session(text: string, input: string, waiting: bool, finished: bool)

  /** `cmd_exit`, `cmd_help` and `cmd_clear`. */
  function Ran(s: Session, c: Command): Session {
    match c
    case Exit => Session(s.text + EXITING, s.input, false, true)
    case Help => s.(text := s.text + HELP_TEXT)
    case Clear => s.(text := PROMPT)
  }

  /** A non-empty, trimmed command line: the command it names, or the complaint. */
  function Answered(s: Session, c: string): Session {
    var i := Find(COMMANDS, c);
    if i >= 0 then Ran(s, COMMANDS[i].command) else s.(text := s.text + UNKNOWN + c + HINT)
  }

  /** The prompt that follows, unless the terminal has finished. */
  function Prompted(s: Session): Session {
    if s.finished then s else s.(text := s.text + PROMPT)
  }

  /** `process_command` once the blanks are skipped. */
  function Respond(s: Session, c: string): Session {
    if c == [] then s.(text := s.text + PROMPT) else Prompted(Answered(s, c))
  }

  /** `process_command`. */
  function Processed(s: Session, cmd: string): Session {
    Respond(s, Trimmed(cmd))
  }

  datatype Reply = Reply(handled: bool, session: Session, effects: seq<Effect>)

  /** WM_KEYDOWN with scancode `key`. */
  function Key(s: Session, key: int): Reply {
    if s.finished || !s.waiting then Reply(false, s, [])
    else if key == SCANCODE_RETURN then
      Reply(true, Processed(s.(text := s.text + s.input + "\n"), s.input).(input := ""), [Invalidate])
    else if key == SCANCODE_BACKSPACE then
      if s.input == [] then Reply(true, s, [])
      else Reply(true, s.(input := s.input[..|s.input| - 1]), [Invalidate])
    else Reply(false, s, [])
  }

  /** Characters the input line accepts. */
  predicate Printable(c: char) {
    32 <= c as int <= 126
  }

  /** WM_TEXTINPUT: only the first character of `text` is looked at (NUL for ""). */
  function Typed(s: Session, text: string): Reply {
    var c := if text == [] then 0 as char else text[0];
    if s.finished || !s.waiting || !Printable(c) then Reply(false, s, [])
    else if |s.input| < INPUT_SIZE - 1 then Reply(true, s.(input := s.input + [c]), [Invalidate])
    else Reply(true, s, [Invalidate])
  }

  /** Sending the characters of w one WM_TEXTINPUT at a time. */
  function TypeAll(s: Session, w: string): Session
    decreases |w|
  {
    if w == [] then s else TypeAll(Typed(s, [w[0]]).session, w[1..])
  }

  /**
   * What running a command line does to the flags: only `exit` finishes
   * (and stops waiting), nothing un-finishes, and the input line is left
   * alone.
   */
  lemma ProcessedFlags(s: Session, cmd: string)
    ensures Processed(s, cmd).finished <==> s.finished || Trimmed(cmd) == "exit"
    ensures Processed(s, cmd).waiting <==> s.waiting && Trimmed(cmd) != "exit"
    ensures Processed(s, cmd).input == s.input
  {
    FindCommand(Trimmed(cmd));
  }

  /** a, extended on the right, still starts with a. */
  lemma Extends(a: string, b: string, c: string)
    ensures a <= a + b && a <= a + b + c
  {
    assert (a + b)[..|a|] == a;
    assert (a + b + c)[..|a|] == a;
  }

  /** Every answer but `clear`'s appends to the text. */
  lemma AnsweredKeeps(s: Session, c: string)
    requires c != "clear"
    ensures s.text <= Answered(s, c).text
  {
    FindCommand(c);
    if c == "exit" {
      Extends(s.text, EXITING, "");
    } else if c == "help" {
      Extends(s.text, HELP_TEXT, "");
    } else {
      Extends(s.text, UNKNOWN + c + HINT, "");
      assert s.text + UNKNOWN + c + HINT == s.text + (UNKNOWN + c + HINT);
    }
  }

  /** Only `clear` drops the text already shown; every other command line appends. */
  lemma ProcessedKeeps(s: Session, cmd: string)
    ensures Trimmed(cmd) != "clear" ==> s.text <= Processed(s, cmd).text
  {
    var c := Trimmed(cmd);
    if c == [] {
      Extends(s.text, PROMPT, "");
    } else if c != "clear" {
      var a := Answered(s, c);
      AnsweredKeeps(s, c);
      Extends(a.text, PROMPT, "");
      assert Processed(s, cmd) == Prompted(a);
    }
  }

  /** A terminal that has not finished ends its text on the prompt. */
  lemma ProcessedPrompts(s: Session, cmd: string)
    ensures !Processed(s, cmd).finished ==> exists t :: Processed(s, cmd).text == t + PROMPT
  {
    var c := Trimmed(cmd);
    var r := Processed(s, cmd);
    if c == [] {
      assert r.text == s.text + PROMPT;
    } else {
      var a := Answered(s, c);
      if !a.finished {
        assert r.text == a.text + PROMPT;
      }
    }
  }

  /** A trailing blank is not trimmed: the command is then unknown. */
  lemma TrailingBlankUnknown(s: Session, i: int)
    requires 0 <= i < |COMMANDS| && !s.finished
    ensures Processed(s, COMMANDS[i].name + " ").text == s.text + UNKNOWN + (COMMANDS[i].name + " ") + HINT + PROMPT
  {
    var c := COMMANDS[i].name + " ";
    assert c[0] == COMMANDS[i].name[0];
    assert Trimmed(c) == c;
    assert c[|c| - 1] == ' ';
    FindCommand(c);
  }

  /** `clear` on a running terminal leaves two prompts: its own and process_command's. */
  lemma ClearLeavesTwoPrompts(s: Session, cmd: string)
    requires Trimmed(cmd) == "clear" && !s.finished
    ensures Processed(s, cmd).text == PROMPT + PROMPT
  {
    FindCommand("clear");
  }

  /** Typing a printable character and deleting it restores the session. */
  lemma TypeThenBackspace(s: Session, c: char)
    requires s.waiting && !s.finished && Printable(c) && |s.input| < INPUT_SIZE - 1
    ensures Typed(s, [c]).handled
    ensures Key(Typed(s, [c]).session, SCANCODE_BACKSPACE) == Reply(true, s, [Invalidate])
  {
    assert (s.input + [c])[..|s.input|] == s.input;
  }

  /** Input is refused once the line holds 255 characters, and ignored after `exit`. */
  lemma InputBounded(s: Session, text: string, key: int)
    ensures |s.input| < INPUT_SIZE ==> |Typed(s, text).session.input| < INPUT_SIZE
    ensures s.finished ==> Typed(s, text) == Reply(false, s, []) && Key(s, key) == Reply(false, s, [])
    ensures |s.input| == INPUT_SIZE - 1 ==> Typed(s, text).session == s
  {
  }

  /** Characters typed one at a time, while there is room, extend the input line. */
  lemma {:induction false} TypeLine(s: Session, w: string)
    requires s.waiting && !s.finished && |s.input| + |w| < INPUT_SIZE
    requires forall i | 0 <= i < |w| :: Printable(w[i])
    ensures TypeAll(s, w) == s.(input := s.input + w)
    decreases |w|
  {
    if w != [] {
      var s' := Typed(s, [w[0]]).session;
      assert s' == s.(input := s.input + [w[0]]);
      TypeLine(s', w[1..]);
      assert s.input + [w[0]] + w[1..] == s.input + w;
    }
  }

  lemma Entered(t: Session)
    requires t.waiting && !t.finished
    ensures Key(t, SCANCODE_RETURN) == Reply(true, Processed(t.(text := t.text + t.input + "\n"), t.input).(input := ""), [Invalidate])
  {
  }

  /** Typing a line into an empty input and pressing Return runs it after echoing it. */
  lemma EnterAfterTyping(s: Session, w: string)
    requires s.waiting && !s.finished && s.input == [] && |w| < INPUT_SIZE
    requires forall i | 0 <= i < |w| :: Printable(w[i])
    ensures Key(TypeAll(s, w), SCANCODE_RETURN)
      == Reply(true, Processed(s.(text := s.text + w + "\n", input := w), w).(input := ""), [Invalidate])
  {
    TypeLine(s, w);
    var t := TypeAll(s, w);
    assert s.input + w == w;
    assert t.text == s.text && t.input == w && t.waiting && !t.finished;
    Entered(t);
    assert t.text + t.input + "\n" == s.text + w + "\n";
  }

  /** Running a command does the same to the input line and the flags whatever the text. */
  lemma TextAside(s: Session, t: string, cmd: string)
    ensures Processed(s, cmd).(text := "") == Processed(s.(text := t), cmd).(text := "")
  {
    FindCommand(Trimmed(cmd));
  }

  /** `help` appends the listing and the prompt. */
  lemma HelpRuns(s: Session)
    requires !s.finished
    ensures Processed(s, "help") == s.(text := s.text + HELP_TEXT + PROMPT)
  {
    assert Trimmed("help") == "help";
    FindCommand("help");
    assert Answered(s, "help") == s.(text := s.text + HELP_TEXT);
  }

  /** `exit` appends its farewell, finishes and stops waiting, with no prompt. */
  lemma ExitRuns(s: Session)
    ensures Processed(s, "exit") == Session(s.text + EXITING, s.input, false, true)
  {
    FindCommand("exit");
  }

  /** The help text holds its header and the name of every command. */
  lemma HelpListed(i: int)
    requires 0 <= i < |COMMANDS|
    ensures HasSubstring(HELP_TEXT, HELP_HEADER) && HasSubstring(HELP_TEXT, COMMANDS[i].name)
  {
    LinesList(COMMANDS, i);
    ContainsWithin(HELP_HEADER, Lines(COMMANDS), "", COMMANDS[i].name);
    ContainsAt(HELP_HEADER, HELP_HEADER, 0);
    ContainsWithin("", HELP_HEADER, Lines(COMMANDS), HELP_HEADER);
    assert HELP_HEADER + Lines(COMMANDS) + "" == Listing(COMMANDS);
    assert "" + HELP_HEADER + Lines(COMMANDS) == Listing(COMMANDS);
  }

  /** Typing "help" and Return lists the commands and prompts again. */
  lemma HelpSession(s: Session, i: int)
    requires s.waiting && !s.finished && s.input == [] && 0 <= i < |COMMANDS|
    ensures var r := Key(TypeAll(s, "help"), SCANCODE_RETURN).session;
      && r.text == s.text + "help" + "\n" + HELP_TEXT + PROMPT
      && HasSubstring(r.text, HELP_HEADER) && HasSubstring(r.text, COMMANDS[i].name)
      && r.waiting && !r.finished && r.input == []
  {
    EnterAfterTyping(s, "help");
    HelpRuns(s.(text := s.text + "help" + "\n", input := "help"));
    HelpListed(i);
    ContainsWithin(s.text + "help" + "\n", HELP_TEXT, PROMPT, HELP_HEADER);
    ContainsWithin(s.text + "help" + "\n", HELP_TEXT, PROMPT, COMMANDS[i].name);
  }

  /** Typing "exit" and Return finishes the terminal; it then takes no more input. */
  lemma ExitSession(s: Session, w: string, key: int)
    requires s.waiting && !s.finished && s.input == []
    ensures var r := Key(TypeAll(s, "exit"), SCANCODE_RETURN).session;
      && r.text == s.text + "exit" + "\n" + EXITING
      && r.finished && !r.waiting
      && Typed(r, w) == Reply(false, r, []) && Key(r, key) == Reply(false, r, [])
  {
    EnterAfterTyping(s, "exit");
    ExitRuns(s.(text := s.text + "exit" + "\n", input := "exit"));
  }

  /** The state behind a command-mode terminal window (`terminal_state_t`). */
  class Terminal {
    var textbuf: Buffer?
    var input: string
    var waiting: bool
    var finished: bool

    ghost predicate Valid()
      reads this, textbuf
    {
      (textbuf != null ==> textbuf.Valid()) && |input| < INPUT_SIZE
    }

    /** The session the window shows; a missing buffer shows "". */
    ghost function Screen(): Session
      reads this, textbuf
    {
      Session(if textbuf == null then "" else textbuf.data, input, waiting, finished)
    }

    /** A session as this terminal can show it: without a buffer there is no text. */
    ghost function Shown(s: Session): Session
      reads this
    {
      if textbuf == null then s.(text := "") else s
    }

    /**
     * WM_CREATE with a null lparam. `bufferOk` is whether the buffer's
     * allocation succeeded; without a buffer the procedure returns false.
     */
    constructor (bufferOk: bool)
      ensures Valid() && waiting && !finished && input == ""
      ensures bufferOk ==> textbuf != null && fresh(textbuf) && textbuf.data == BANNER + PROMPT
      ensures !bufferOk ==> textbuf == null
    {
      input := "";
      waiting := true;
      finished := false;
      if bufferOk {
        var b := new Buffer();
        textbuf := b;
        b.Append(BANNER);
        b.Append(PROMPT);
      } else {
        textbuf := null;
      }
    }

    /** `f_strcat(&state->textbuf, s)`; the terminal's appends are taken to reallocate successfully. */
    method Write(s: string)
      requires Valid()
      modifies textbuf
      ensures Valid()
      ensures textbuf != null ==> textbuf.data == old(textbuf.data) + s
    {
      StrCat(textbuf, Some(s), true);
    }

    /** One line of `cmd_help`'s listing. */
    method WriteLine(e: Entry)
      requires Valid()
      modifies textbuf
      ensures Valid()
      ensures textbuf != null ==> textbuf.data == old(textbuf.data) + Line(e)
    {
      Write("  ");
      Write(e.name);
      Write(" - ");
      Write(e.help);
      Write("\n");
    }

    /** `cmd_help`: the header, then one line per table entry. */
    method ListCommands(table: seq<Entry>)
      requires Valid()
      modifies textbuf
      ensures Valid()
      ensures textbuf != null ==> textbuf.data == old(textbuf.data) + Listing(table)
    {
      Write(HELP_HEADER);
      var i := 0;
      while i < |table|
        invariant 0 <= i <= |table| && Valid()
        invariant textbuf != null ==> textbuf.data == old(textbuf.data) + HELP_HEADER + Lines(table[..i])
      {
        WriteLine(table[i]);
        LinesSnoc(table, i);
        i := i + 1;
      }
      assert table[..i] == table;
    }

    /** The callback of a command table entry. */
    method Run(c: Command)
      requires Valid()
      modifies this, textbuf
      ensures Valid() && textbuf == old(textbuf)
      ensures Screen() == Shown(Ran(old(Screen()), c))
    {
      match c
      case Exit =>
        Write(EXITING);
        finished := true;
        waiting := false;
      case Help =>
        ListCommands(COMMANDS);
      case Clear =>
        if textbuf != null {
          textbuf.data := "";
        }
        Write(PROMPT);
    }

    /** The table search of `process_command`, for a non-empty trimmed command. */
    method Answer(c: string)
      requires Valid()
      modifies this, textbuf
      ensures Valid() && textbuf == old(textbuf)
      ensures Screen() == Shown(Answered(old(Screen()), c))
    {
      var i := 0;
      while i < |COMMANDS| && COMMANDS[i].name != c
        invariant 0 <= i <= |COMMANDS|
        invariant forall j | 0 <= j < i :: COMMANDS[j].name != c
      {
        i := i + 1;
      }
      if i < |COMMANDS| {
        Run(COMMANDS[i].command);
      } else {
        Write(UNKNOWN);
        Write(c);
        Write(HINT);
      }
    }

    /** The blank-skipping loop of `process_command`: where the command starts. */
    static method SkipBlanks(cmd: string) returns (k: int)
      ensures 0 <= k <= |cmd| && cmd[k..] == Trimmed(cmd)
    {
      k := 0;
      while k < |cmd| && (cmd[k] == ' ' || cmd[k] == '\t')
        invariant 0 <= k <= |cmd| && Trimmed(cmd[k..]) == Trimmed(cmd)
      {
        assert cmd[k..][1..] == cmd[k + 1..];
        k := k + 1;
      }
    }

    /** `process_command(state, cmd)`. */
    method ProcessCommand(cmd: string)
      requires Valid()
      modifies this, textbuf
      ensures Valid() && textbuf == old(textbuf)
      ensures Screen() == Shown(Processed(old(Screen()), cmd))
    {
      var k := SkipBlanks(cmd);
      RespondTo(cmd[k..]);
    }

    /** `process_command` after the blanks: a bare prompt, or the answer and its prompt. */
    method RespondTo(c: string)
      requires Valid()
      modifies this, textbuf
      ensures Valid() && textbuf == old(textbuf)
      ensures Screen() == Shown(Respond(old(Screen()), c))
    {
      if c == [] {
        Write(PROMPT);
        return;
      }
      ghost var before := Screen();
      Answer(c);
      Prompt(Answered(before, c));
    }

    /** The closing prompt of `process_command`, left out once the terminal has finished. */
    method Prompt(ghost a: Session)
      requires Valid() && Screen() == Shown(a)
      modifies textbuf
      ensures Valid() && Screen() == Shown(Prompted(a))
    {
      if !finished {
        Write(PROMPT);
      }
    }

    /** Return: the line is echoed, run as a command and cleared. */
    method Submit()
      requires Valid()
      modifies this, textbuf
      ensures Valid() && textbuf == old(textbuf)
      ensures Screen() == Shown(Processed(old(Screen()).(text := old(Screen()).text + old(input) + "\n"), old(input)).(input := ""))
    {
      ghost var before := old(Screen()).(text := old(Screen()).text + old(input) + "\n");
      Write(input);
      Write("\n");
      assert textbuf != null ==> Screen() == before;
      assert Screen().(text := "") == before.(text := "");
      ProcessCommand(input);
      if textbuf == null {
        TextAside(before, "", old(input));
      }
      input := "";
    }

    /** WM_KEYDOWN in command mode. */
    method KeyDown(key: U32) returns (r: bool, fx: seq<Effect>)
      requires Valid()
      modifies this, textbuf
      ensures Valid() && textbuf == old(textbuf)
      ensures var k := Key(old(Screen()), key); r == k.handled && Screen() == Shown(k.session) && fx == k.effects
    {
      if finished || !waiting {
        return false, [];
      }
      if key == SCANCODE_RETURN {
        Submit();
        return true, [Invalidate];
      } else if key == SCANCODE_BACKSPACE {
        if |input| > 0 {
          input := input[..|input| - 1];
          return true, [Invalidate];
        }
        return true, [];
      }
      return false, [];
    }

    /** WM_TEXTINPUT in command mode; `text` is the string lparam points at. */
    method TextInput(text: string) returns (r: bool, fx: seq<Effect>)
      requires Valid()
      modifies this
      ensures Valid()
      ensures Reply(r, Screen(), fx) == Typed(old(Screen()), text)
    {
      var c := if text == [] then 0 as char else text[0];
      if finished || !waiting {
        return false, [];
      }
      if c as int < 32 || c as int > 126 {
        return false, [];
      }
      if |input| < INPUT_SIZE - 1 {
        input := input + [c];
      }
      return true, [Invalidate];
    }
  }

  /**
   * `terminal_get_buffer`: the buffer text of a terminal window, or "" for
   * a missing window or state (`state` null), a window whose procedure is
   * not the terminal's, or a missing buffer.
   */
  method GetBuffer(state: Terminal?, isTerminal: bool) returns (s: string)
    ensures state != null && isTerminal && state.textbuf != null ==> s == state.textbuf.data
    ensures state == null || !isTerminal || state.textbuf == null ==> s == ""
  {
    if state == null || !isTerminal || state.textbuf == null {
      return "";
    }
    return state.textbuf.data;
  }
}
