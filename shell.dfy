/** The interactive remote-shell session of autobuild/ssh.py (SSHHelper):
    chunks received from the channel are normalised (CRLF to LF, terminal
    escape sequences removed, the echoed sentinel command rewritten), cut
    into lines with a carry-over buffer, filtered for display, and the read
    loop stops at the first chunk that contains the sentinel. */
module Shell {
  import opened Text

  const ESC: char := '\U{1B}'

  /** The sentinel the session echoes after every command. */
  const Sentinel: string := "+++END+++"
  /** The command that echoes the sentinel, as the remote shell echoes it back. */
  const SentinelEcho: string := "echo '+++END+++'"
  /** What the echoed sentinel command is rewritten to. */
  const EndMarker: string := "---END---"

  // ---------------------------------------------------------------------
  // Terminal escape sequences: \x1B(?:[@-Z\\-_]|\[[0-?]*[ -/]*[@-~])

  /** The first index at or after `i` whose character lies outside `lo..hi`. */
  function SkipRange(s: string, i: nat, lo: char, hi: char): (j: nat)
    requires i <= |s|
    ensures i <= j <= |s|
    ensures forall k :: i <= k < j ==> lo <= s[k] <= hi
    ensures j < |s| ==> !(lo <= s[j] <= hi)
    decreases |s| - i
  {
    if i < |s| && lo <= s[i] <= hi then SkipRange(s, i + 1, lo, hi) else i
  }

  /** A two-character escape: ESC followed by a byte of 0x40-0x5A or 0x5C-0x5F. */
  predicate IsFe(c: char)
  {
    '@' <= c <= 'Z' || '\\' <= c <= '_'
  }

  /** The length of the escape sequence the pattern matches at the start
      of `s`, or 0 when it matches none there. A control sequence is
      ESC '[', parameter bytes 0x30-0x3F, intermediate bytes 0x20-0x2F and
      one final byte 0x40-0x7E (section 5.4 of ECMA-48). */
  function EscapeMatch(s: string): (n: nat)
    ensures n == 0 || 2 <= n <= |s|
  {
    if |s| < 2 || s[0] != ESC then 0
    else if IsFe(s[1]) then 2
    else if s[1] == '[' then
      var p := SkipRange(s, 2, '0', '?');
      var q := SkipRange(s, p, ' ', '/');
      if q < |s| && '@' <= s[q] <= '~' then q + 1 else 0
    else 0
  }

  /** `ansi_escape.sub('', s)`: matches removed left to right. */
  function StripAnsi(s: string): string
    decreases |s|
  {
    if s == "" then ""
    else if EscapeMatch(s) > 0 then StripAnsi(s[EscapeMatch(s)..])
    else [s[0]] + StripAnsi(s[1..])
  }

  /** The per-chunk normalisation of read_channel_until, in its order:
      CRLF to LF, escape sequences removed, then the echoed sentinel
      command (when given) replaced by the end marker. */
  function NormalizeChunk(chunk: string, commandEnd: Option<string>): string
    requires commandEnd.Some? ==> commandEnd.value != ""
  {
    var text := StripAnsi(Replace(chunk, "\r\n", "\n"));
    if commandEnd.Some? then Replace(text, commandEnd.value, EndMarker) else text
  }

  /** The normalised text of a run of chunks, in order. */
  function NormalizeAll(chunks: seq<string>, commandEnd: Option<string>): string
    requires commandEnd.Some? ==> commandEnd.value != ""
  {
    if chunks == [] then ""
    else NormalizeAll(chunks[..|chunks| - 1], commandEnd) + NormalizeChunk(chunks[|chunks| - 1], commandEnd)
  }

  // ---------------------------------------------------------------------
  // Line assembly

  /** Complete lines received so far and the partial line carried over. */
  datatype Buffer = Buffer(lines: seq<string>, carry: string)

  /** Line assembly one character at a time: the reference definition the
      split-based process_channel_text is proved against. */
  function FeedChars(b: Buffer, text: string): Buffer
    decreases |text|
  {
    if text == "" then b
    else if text[0] == '\n' then FeedChars(Buffer(b.lines + [b.carry], ""), text[1..])
    else FeedChars(Buffer(b.lines, b.carry + [text[0]]), text[1..])
  }

  /** The lines, each followed by a newline, concatenated. */
  function Terminated(lines: seq<string>): string
  {
    if lines == [] then "" else Terminated(lines[..|lines| - 1]) + lines[|lines| - 1] + "\n"
  }

  // ---------------------------------------------------------------------
  // Display filter

  /** The skip-empty-lines flag and the lines handed to the logger. */
  datatype Display = Display(skip: bool, shown: seq<string>)

  /** display_channel_text applied to one line. */
  function DisplayLine(d: Display, line: string): Display
  {
    if EndsWith(line, "\r") then d
    else if line == "" then (if d.skip then d else Display(true, d.shown + [""]))
    else Display(false, d.shown + [line])
  }

  /** display_channel_text applied to each line in order. */
  function DisplayLines(d: Display, lines: seq<string>): Display
  {
    if lines == [] then d
    else DisplayLine(DisplayLines(d, lines[..|lines| - 1]), lines[|lines| - 1])
  }

  /** The flag is set exactly when the last line logged was empty. */
  predicate FlagTracksLog(d: Display)
  {
    d.skip <==> (|d.shown| > 0 && d.shown[|d.shown| - 1] == "")
  }

  /** No two consecutive logged lines are both empty. */
  predicate NoDoubleEmpty(shown: seq<string>)
  {
    forall i :: 0 <= i < |shown| - 1 ==> !(shown[i] == "" && shown[i + 1] == "")
  }

  /** The non-empty lines that do not end in a carriage return. */
  function Visible(lines: seq<string>): seq<string>
  {
    if lines == [] then []
    else
      var line := lines[|lines| - 1];
      Visible(lines[..|lines| - 1]) + (if line != "" && !EndsWith(line, "\r") then [line] else [])
  }

  /** The non-empty lines of a log. */
  function NonEmpty(lines: seq<string>): seq<string>
  {
    if lines == [] then []
    else
      var line := lines[|lines| - 1];
      NonEmpty(lines[..|lines| - 1]) + (if line != "" then [line] else [])
  }

  // ---------------------------------------------------------------------
  // The read loop

  /** The number of chunks read_channel_until consumes: up to and
      including the first whose normalised text contains `end`, or all of
      them (running out of chunks stands for the timeout). */
  function StopCount(chunks: seq<string>, end: Option<string>, commandEnd: Option<string>): (k: nat)
    requires commandEnd.Some? ==> commandEnd.value != ""
    ensures k <= |chunks|
    decreases |chunks|
  {
    if chunks == [] then 0
    else if Stops(chunks[0], end, commandEnd) then 1
    else 1 + StopCount(chunks[1..], end, commandEnd)
  }

  /** The read stops after this chunk: its normalised text contains `end`. */
  predicate Stops(chunk: string, end: Option<string>, commandEnd: Option<string>)
    requires commandEnd.Some? ==> commandEnd.value != ""
  {
    end.Some? && Contains(NormalizeChunk(chunk, commandEnd), end.value)
  }

  /** The line buffer after a read of `chunks`. */
  function ReadBuffer(chunks: seq<string>, end: Option<string>, commandEnd: Option<string>): Buffer
    requires commandEnd.Some? ==> commandEnd.value != ""
  {
    FeedChars(Buffer([], ""), NormalizeAll(chunks[..StopCount(chunks, end, commandEnd)], commandEnd))
  }

  /** What read_channel_until returns: the complete lines joined by "\n". */
  function ReadResult(chunks: seq<string>, end: Option<string>, commandEnd: Option<string>): string
    requires commandEnd.Some? ==> commandEnd.value != ""
  {
    Join(ReadBuffer(chunks, end, commandEnd).lines, '\n')
  }

  // ---------------------------------------------------------------------
  // Command framing

  /** What is sent for one command: the command with every backslash
      doubled and CRLF, then the sentinel echo. */
  function CommandFrames(command: string): seq<string>
  {
    [EscapeBackslashes(command) + "\r\n", SentinelEcho + "\r\n"]
  }

  /** What is sent after connecting: the sentinel echo, then, when a
      default shell is configured, the shell command and a second echo. */
  function StartupFrames(defaultShell: string): seq<string>
  {
    [SentinelEcho + "\r\n"] + (if defaultShell != "" then [EscapeBackslashes(defaultShell) + "\n", SentinelEcho + "\r\n"] else [])
  }

  /** The reads done after connecting and before the first command:
      the banner drain, the sentinel read and, with a default shell, one more. */
  function StartupReads(defaultShell: string): nat
  {
    if defaultShell != "" then 3 else 2
  }

  /** Everything launch_ssh_commands sends for a batch of commands. */
  function BatchFrames(defaultShell: string, commands: seq<string>): seq<string>
  {
    if commands == [] then []
    else BatchFrames(defaultShell, commands[..|commands| - 1]) +
         (if |commands| == 1 then StartupFrames(defaultShell) else []) +
         CommandFrames(commands[|commands| - 1])
  }

  /** The batch of chunks the `j`-th read receives, or none. */
  function BatchAt(inbox: seq<seq<string>>, j: nat): seq<string>
  {
    if j < |inbox| then inbox[j] else []
  }

  /** The inbox after `j` reads. */
  function Drop(inbox: seq<seq<string>>, j: nat): seq<seq<string>>
  {
    if j <= |inbox| then inbox[j..] else []
  }

  /** The text returned for a command whose output is the `j`-th batch. */
  function CommandOutput(inbox: seq<seq<string>>, j: nat): string
  {
    ReadResult(BatchAt(inbox, j), Some(Sentinel), Some(SentinelEcho))
  }

  /** The outputs of the commands of a batch, in order: after the startup
      reads, the `i`-th command reads the next batch. */
  function BatchOutputs(inbox: seq<seq<string>>, startup: nat, n: nat): seq<string>
  {
    if n == 0 then [] else BatchOutputs(inbox, startup, n - 1) + [CommandOutput(inbox, startup + n - 1)]
  }

  /** The SSHHelper object: the line buffer, the display flag, what has
      been logged and sent, and the chunks the remote side will deliver. */
  class Session {
    const ip: string
    const username: string
    var defaultShell: string
    /** lines, current_line and skip_empty_lines of the source */
    var lines: seq<string>
    var currentLine: string
    var skipEmptyLines: bool
    /** every line display_channel_text handed to the logger */
    var shown: seq<string>
    /** every string sent on the channel */
    var sent: seq<string>
    /** connections opened so far */
    var connections: nat
    /** the batches of chunks each successive read receives */
    var inbox: seq<seq<string>>

    ghost predicate Valid()
      reads this
    {
      '\n' !in currentLine && LogValid()
    }

    /** The display flag and the log agree. */
    ghost predicate LogValid()
      reads this
    {
      FlagTracksLog(Display(skipEmptyLines, shown)) && NoDoubleEmpty(shown)
    }

    constructor (ip: string, username: string, inbox: seq<seq<string>>)
      ensures Valid()
      ensures this.ip == ip && this.username == username && this.inbox == inbox
      ensures defaultShell == "" && lines == [] && currentLine == "" && !skipEmptyLines
      ensures shown == [] && sent == [] && connections == 0
    {
      this.ip := ip;
      this.username := username;
      this.inbox := inbox;
      defaultShell := "";
      lines := [];
      currentLine := "";
      skipEmptyLines := false;
      shown := [];
      sent := [];
      connections := 0;
    }

    method SetDefaultShell(shell: string)
      modifies this`defaultShell
      ensures defaultShell == shell
    {
      defaultShell := shell;
    }

    /** display_channel_text */
    method DisplayChannelText(line: string)
      requires LogValid()
      modifies this`skipEmptyLines, this`shown
      ensures LogValid()
      ensures Display(skipEmptyLines, shown) == DisplayLine(old(Display(skipEmptyLines, shown)), line)
    {
      DisplayKeepsInvariant(Display(skipEmptyLines, shown), line);
      if EndsWith(line, "\r") {
        return;
      }
      if line == "" {
        if skipEmptyLines {
          return;
        }
        skipEmptyLines := true;
      } else {
        skipEmptyLines := false;
      }
      shown := shown + [line];
    }

    /** process_channel_text */
    method ProcessChannelText(chunk: string)
      requires Valid()
      modifies this`lines, this`currentLine, this`skipEmptyLines, this`shown
      ensures Valid()
      ensures Buffer(lines, currentLine) == FeedChars(old(Buffer(lines, currentLine)), chunk)
      ensures old(lines) <= lines
      ensures Display(skipEmptyLines, shown) == DisplayLines(old(Display(skipEmptyLines, shown)), lines[|old(lines)|..])
    {
      FeedCharsSplit(lines, currentLine, chunk);
      currentLine := currentLine + chunk;
      if '\n' in chunk {
        var parts := Split(currentLine, '\n');
        AppendLines(parts[..|parts| - 1]);
        currentLine := parts[|parts| - 1];
        assert lines[|old(lines)|..] == parts[..|parts| - 1];
      } else {
        SplitNoSep(currentLine, '\n');
        assert lines[|old(lines)|..] == [];
      }
    }

    /** The loop of process_channel_text: each complete line is appended
        to `lines` and displayed. */
    method AppendLines(complete: seq<string>)
      requires LogValid()
      modifies this`lines, this`skipEmptyLines, this`shown
      ensures LogValid()
      ensures lines == old(lines) + complete
      ensures Display(skipEmptyLines, shown) == DisplayLines(old(Display(skipEmptyLines, shown)), complete)
    {
      ghost var l0, d0 := lines, Display(skipEmptyLines, shown);
      var i := 0;
      while i < |complete|
        invariant 0 <= i <= |complete|
        invariant LogValid()
        invariant lines == l0 + complete[..i]
        invariant Display(skipEmptyLines, shown) == DisplayLines(d0, complete[..i])
      {
        assert complete[..i + 1] == complete[..i] + [complete[i]];
        assert complete[..i + 1][..i] == complete[..i];
        lines := lines + [complete[i]];
        DisplayChannelText(complete[i]);
        i := i + 1;
      }
      assert complete[..i] == complete;
    }

    /** read_channel_until over the chunks received before the stop or the
        timeout; returns the text and the number of chunks consumed. */
    method ReadChannelUntil(chunks: seq<string>, end: Option<string>, commandEnd: Option<string>) returns (text: string, consumed: nat)
      requires Valid()
      requires commandEnd.Some? ==> commandEnd.value != ""
      modifies this`lines, this`currentLine, this`skipEmptyLines, this`shown
      ensures Valid()
      ensures consumed == StopCount(chunks, end, commandEnd)
      ensures Buffer(lines, currentLine) == ReadBuffer(chunks, end, commandEnd)
      ensures text == ReadResult(chunks, end, commandEnd)
      ensures Display(skipEmptyLines, shown) == DisplayLines(old(Display(skipEmptyLines, shown)), lines + [currentLine])
    {
      ghost var d0 := Display(skipEmptyLines, shown);
      lines := [];
      currentLine := "";
      assert chunks[..0] == [];
      consumed := ReadLoop(chunks, end, commandEnd, d0);
      DisplayLinesAppend(d0, lines, [currentLine]);
      DisplayChannelText(currentLine);
      text := Join(lines, '\n');
    }

    /** The loop of read_channel_until: chunks are processed until one
        contains `end` or none are left; returns how many were consumed. */
    method ReadLoop(chunks: seq<string>, end: Option<string>, commandEnd: Option<string>, ghost d0: Display)
      returns (consumed: nat)
      requires commandEnd.Some? ==> commandEnd.value != ""
      requires ReadProgress(chunks, 0, commandEnd, d0)
      modifies this`lines, this`currentLine, this`skipEmptyLines, this`shown
      ensures consumed == StopCount(chunks, end, commandEnd)
      ensures ReadProgress(chunks, consumed, commandEnd, d0)
    {
      var i := 0;
      var stop := false;
      ghost var k := StopCount(chunks, end, commandEnd);
      assert chunks[0..] == chunks;
      while i < |chunks| && !stop
        invariant 0 <= i <= |chunks|
        invariant ReadProgress(chunks, i, commandEnd, d0)
        invariant !stop ==> k == i + StopCount(chunks[i..], end, commandEnd)
        invariant stop ==> k == i
        decreases |chunks| - i, !stop
      {
        StopCountStep(chunks, i, end, commandEnd);
        stop := ReadStep(chunks, i, end, commandEnd, d0);
        i := i + 1;
      }
      if !stop {
        assert chunks[i..] == [];
      }
      consumed := i;
    }

    /** The state of read_channel_until after the first `i` chunks, in a
        session whose display started as `d0`. */
    ghost predicate ReadProgress(chunks: seq<string>, i: nat, commandEnd: Option<string>, d0: Display)
      requires commandEnd.Some? ==> commandEnd.value != ""
      reads this
    {
      && i <= |chunks|
      && Valid()
      && Buffer(lines, currentLine) == FeedChars(Buffer([], ""), NormalizeAll(chunks[..i], commandEnd))
      && Display(skipEmptyLines, shown) == DisplayLines(d0, lines)
    }

    /** One pass of the read loop: normalise chunk `i`, feed it to the line
        buffer and test it for `end`. */
    method ReadStep(chunks: seq<string>, i: nat, end: Option<string>, commandEnd: Option<string>, ghost d0: Display)
      returns (stop: bool)
      requires i < |chunks| && (commandEnd.Some? ==> commandEnd.value != "")
      requires ReadProgress(chunks, i, commandEnd, d0)
      modifies this`lines, this`currentLine, this`skipEmptyLines, this`shown
      ensures ReadProgress(chunks, i + 1, commandEnd, d0)
      ensures stop == Stops(chunks[i], end, commandEnd)
    {
      var line := NormalizeChunk(chunks[i], commandEnd);
      ghost var before := lines;
      ProcessChannelText(line);
      NormalizeAllStep(chunks, i, commandEnd);
      FeedCharsAppend(Buffer([], ""), NormalizeAll(chunks[..i], commandEnd), line);
      DisplayLinesAppend(d0, before, lines[|before|..]);
      assert before + lines[|before|..] == lines;
      stop := end.Some? && Find(line, end.value, 0) >= 0;
    }

    /** The next batch of chunks delivered to a read. */
    method Receive() returns (chunks: seq<string>)
      modifies this`inbox
      ensures chunks == BatchAt(old(inbox), 0) && inbox == Drop(old(inbox), 1)
    {
      if |inbox| > 0 {
        chunks := inbox[0];
        inbox := inbox[1..];
      } else {
        chunks := [];
      }
    }

    /** One read_channel_until over the next batch. */
    method ReadNext(end: Option<string>, commandEnd: Option<string>) returns (text: string)
      requires Valid()
      requires commandEnd.Some? ==> commandEnd.value != ""
      modifies this`lines, this`currentLine, this`skipEmptyLines, this`shown, this`inbox
      ensures Valid()
      ensures text == ReadResult(BatchAt(old(inbox), 0), end, commandEnd)
      ensures inbox == Drop(old(inbox), 1)
    {
      var chunks := Receive();
      var consumed;
      text, consumed := ReadChannelUntil(chunks, end, commandEnd);
    }

    /** The connection part of launch_ssh_command: open a connection,
        drain the banner, run the sentinel echo and, when configured,
        launch the default shell. */
    method Connect()
      requires Valid()
      modifies this`lines, this`currentLine, this`skipEmptyLines, this`shown, this`inbox, this`sent, this`connections
      ensures Valid()
      ensures sent == old(sent) + StartupFrames(defaultShell)
      ensures connections == old(connections) + 1
      ensures inbox == Drop(old(inbox), StartupReads(defaultShell))
    {
      var ignored;
      connections := connections + 1;
      ignored := ReadNext(None, None);
      ignored := SyncEcho();
      DropDrop(old(inbox), 1, 1);
      if defaultShell != "" {
        LaunchDefaultShell();
        DropDrop(old(inbox), 2, 1);
      }
    }

    /** Send the sentinel echo and read up to the sentinel. */
    method SyncEcho() returns (text: string)
      requires Valid()
      modifies this`lines, this`currentLine, this`skipEmptyLines, this`shown, this`inbox, this`sent
      ensures Valid()
      ensures sent == old(sent) + [SentinelEcho + "\r\n"]
      ensures inbox == Drop(old(inbox), 1)
      ensures text == CommandOutput(old(inbox), 0)
    {
      sent := sent + [SentinelEcho + "\r\n"];
      text := ReadNext(Some(Sentinel), Some(SentinelEcho));
    }

    /** Launch the default shell, escaped, and wait for a sentinel echo
        run inside it. */
    method LaunchDefaultShell()
      requires Valid()
      modifies this`lines, this`currentLine, this`skipEmptyLines, this`shown, this`inbox, this`sent
      ensures Valid()
      ensures sent == old(sent) + [EscapeBackslashes(defaultShell) + "\n", SentinelEcho + "\r\n"]
      ensures inbox == Drop(old(inbox), 1)
    {
      sent := sent + [EscapeBackslashes(defaultShell) + "\n"];
      var ignored := SyncEcho();
    }

    /** The command part of launch_ssh_command: send the command, escaped,
        and the sentinel echo, then read the command's output up to the
        sentinel. */
    method RunCommand(command: string) returns (text: string)
      requires Valid()
      modifies this`lines, this`currentLine, this`skipEmptyLines, this`shown, this`inbox, this`sent
      ensures Valid()
      ensures sent == old(sent) + CommandFrames(command)
      ensures inbox == Drop(old(inbox), 1)
      ensures text == CommandOutput(old(inbox), 0)
    {
      sent := sent + [EscapeBackslashes(command) + "\r\n"];
      text := SyncEcho();
    }

    /** launch_ssh_command: with `resetConnection`, connect first; then
        run the command. */
    method LaunchSshCommand(command: string, resetConnection: bool) returns (text: string)
      requires Valid()
      modifies this`lines, this`currentLine, this`skipEmptyLines, this`shown, this`inbox, this`sent, this`connections
      ensures Valid()
      ensures resetConnection ==>
        && sent == old(sent) + StartupFrames(defaultShell) + CommandFrames(command)
        && connections == old(connections) + 1
        && inbox == Drop(old(inbox), StartupReads(defaultShell) + 1)
        && text == CommandOutput(old(inbox), StartupReads(defaultShell))
      ensures !resetConnection ==>
        && sent == old(sent) + CommandFrames(command)
        && connections == old(connections)
        && inbox == Drop(old(inbox), 1)
        && text == CommandOutput(old(inbox), 0)
    {
      if resetConnection {
        Connect();
        ghost var k := StartupReads(defaultShell);
        assert inbox == Drop(old(inbox), k);
        DropBatchAt(old(inbox), k, 0);
        DropDrop(old(inbox), k, 1);
      }
      text := RunCommand(command);
    }

    /** launch_ssh_commands: the connection is reset for the first command
        only, and the outputs are joined with "\n" in command order. */
    method LaunchSshCommands(commands: seq<string>) returns (text: string)
      requires Valid()
      modifies this`lines, this`currentLine, this`skipEmptyLines, this`shown, this`inbox, this`sent, this`connections
      ensures Valid()
      ensures sent == old(sent) + BatchFrames(old(defaultShell), commands)
      ensures connections == old(connections) + (if commands == [] then 0 else 1)
      ensures text == Join(BatchOutputs(old(inbox), StartupReads(old(defaultShell)), |commands|), '\n')
    {
      if commands == [] {
        text := Join([], '\n');
        return;
      }
      ghost var inbox0, sent0, shell := inbox, sent, defaultShell;
      var outputs := LaunchFirst(commands);
      var i := 1;
      while i < |commands|
        invariant 1 <= i <= |commands|
        invariant BatchProgress(commands, i, inbox0, sent0, old(connections), shell, outputs)
      {
        outputs := LaunchNext(commands, i, inbox0, sent0, old(connections), shell, outputs);
        i := i + 1;
      }
      assert commands[..i] == commands;
      text := Join(outputs, '\n');
    }

    /** The state of launch_ssh_commands after its first `i` commands,
        for a session that started with `inbox0`, `sent0` and `conn0`
        connections under `shell`. */
    ghost predicate BatchProgress(commands: seq<string>, i: nat, inbox0: seq<seq<string>>,
                                  sent0: seq<string>, conn0: nat, shell: string, outputs: seq<string>)
      reads this
    {
      && 1 <= i <= |commands|
      && Valid()
      && defaultShell == shell
      && sent == sent0 + BatchFrames(shell, commands[..i])
      && connections == conn0 + 1
      && inbox == Drop(inbox0, StartupReads(shell) + i)
      && outputs == BatchOutputs(inbox0, StartupReads(shell), i)
    }

    /** The first iteration of launch_ssh_commands: connect and launch the
        first command. */
    method LaunchFirst(commands: seq<string>) returns (outputs: seq<string>)
      requires Valid() && commands != []
      modifies this`lines, this`currentLine, this`skipEmptyLines, this`shown, this`inbox, this`sent, this`connections
      ensures BatchProgress(commands, 1, old(inbox), old(sent), old(connections), old(defaultShell), outputs)
    {
      var first := LaunchSshCommand(commands[0], true);
      BatchFramesStep(defaultShell, commands, 0);
      outputs := [first];
    }

    /** One later iteration of launch_ssh_commands: launch command `i`
        without reconnecting. */
    method LaunchNext(commands: seq<string>, i: nat, ghost inbox0: seq<seq<string>>, ghost sent0: seq<string>,
                      ghost conn0: nat, ghost shell: string, outputs: seq<string>) returns (outputs': seq<string>)
      requires i < |commands|
      requires BatchProgress(commands, i, inbox0, sent0, conn0, shell, outputs)
      modifies this`lines, this`currentLine, this`skipEmptyLines, this`shown, this`inbox, this`sent, this`connections
      ensures BatchProgress(commands, i + 1, inbox0, sent0, conn0, shell, outputs')
    {
      var out := LaunchSshCommand(commands[i], false);
      DropBatchAt(inbox0, StartupReads(shell) + i, 0);
      DropDrop(inbox0, StartupReads(shell) + i, 1);
      BatchFramesStep(shell, commands, i);
      outputs' := outputs + [out];
    }
  }

  // ---------------------------------------------------------------------
  // Lemmas the methods rest on

  lemma NormalizeAllStep(chunks: seq<string>, i: nat, commandEnd: Option<string>)
    requires i < |chunks| && (commandEnd.Some? ==> commandEnd.value != "")
    ensures NormalizeAll(chunks[..i + 1], commandEnd) == NormalizeAll(chunks[..i], commandEnd) + NormalizeChunk(chunks[i], commandEnd)
  {
    assert chunks[..i + 1][..i] == chunks[..i];
  }

  lemma StopCountStep(chunks: seq<string>, i: nat, end: Option<string>, commandEnd: Option<string>)
    requires i < |chunks| && (commandEnd.Some? ==> commandEnd.value != "")
    ensures StopCount(chunks[i..], end, commandEnd) ==
      if Stops(chunks[i], end, commandEnd) then 1 else 1 + StopCount(chunks[i + 1..], end, commandEnd)
  {
    assert chunks[i..][0] == chunks[i] && chunks[i..][1..] == chunks[i + 1..];
  }

  lemma BatchFramesStep(defaultShell: string, commands: seq<string>, i: nat)
    requires i < |commands|
    ensures BatchFrames(defaultShell, commands[..i + 1]) ==
      BatchFrames(defaultShell, commands[..i]) +
      (if i == 0 then StartupFrames(defaultShell) else []) + CommandFrames(commands[i])
  {
    assert commands[..i + 1][..i] == commands[..i];
  }

  lemma DropBatchAt(inbox: seq<seq<string>>, j: nat, m: nat)
    ensures BatchAt(Drop(inbox, j), m) == BatchAt(inbox, j + m)
  {
  }

  lemma DropDrop(inbox: seq<seq<string>>, j: nat, m: nat)
    ensures Drop(Drop(inbox, j), m) == Drop(inbox, j + m)
  {
    if j + m <= |inbox| {
      assert inbox[j..][m..] == inbox[j + m..];
    }
  }

  /** One displayed line keeps the display invariants. */
  lemma DisplayKeepsInvariant(d: Display, line: string)
    requires FlagTracksLog(d) && NoDoubleEmpty(d.shown)
    ensures FlagTracksLog(DisplayLine(d, line)) && NoDoubleEmpty(DisplayLine(d, line).shown)
  {
  }

  /** Displaying two runs of lines is displaying their concatenation. */
  lemma {:induction false} DisplayLinesAppend(d: Display, xs: seq<string>, ys: seq<string>)
    ensures DisplayLines(DisplayLines(d, xs), ys) == DisplayLines(d, xs + ys)
    decreases |ys|
  {
    if ys == [] {
      assert xs + ys == xs;
    } else {
      DisplayLinesAppend(d, xs, ys[..|ys| - 1]);
      assert (xs + ys)[..|xs + ys| - 1] == xs + ys[..|ys| - 1];
    }
  }

  /** Line assembly of two texts is line assembly of their concatenation,
      so how the text is cut into chunks does not matter. */
  lemma {:induction false} FeedCharsAppend(b: Buffer, x: string, y: string)
    ensures FeedChars(FeedChars(b, x), y) == FeedChars(b, x + y)
    decreases |x|
  {
    if x == "" {
      assert x + y == y;
    } else {
      assert (x + y)[0] == x[0];
      assert (x + y)[1..] == x[1..] + y;
      if x[0] == '\n' {
        FeedCharsAppend(Buffer(b.lines + [b.carry], ""), x[1..], y);
      } else {
        FeedCharsAppend(Buffer(b.lines, b.carry + [x[0]]), x[1..], y);
      }
    }
  }

  /** Line assembly loses and invents nothing: the old carry and the text
      are the newly completed lines, each with its newline, followed by the
      new carry, which holds no newline. */
  lemma FeedCharsText(b: Buffer, text: string)
    requires '\n' !in b.carry
    ensures b.lines <= FeedChars(b, text).lines
    ensures Terminated(FeedChars(b, text).lines[|b.lines|..]) + FeedChars(b, text).carry == b.carry + text
    ensures '\n' !in FeedChars(b, text).carry
  {
    FeedCharsSplit(b.lines, b.carry, text);
    var parts := Split(b.carry + text, '\n');
    assert (b.lines + Init(parts))[|b.lines|..] == Init(parts);
    TerminatedJoin(parts);
    JoinSplit(b.carry + text, '\n');
  }

  /** Terminating every piece but the last and appending the last is
      joining with newlines. */
  lemma {:induction false} TerminatedJoin(parts: seq<string>)
    requires |parts| >= 1
    ensures Terminated(Init(parts)) + Last(parts) == Join(parts, '\n')
    decreases |parts|
  {
    if |parts| == 1 {
      assert Init(parts) == [];
    } else {
      var init := Init(parts);
      TerminatedJoin(init);
      assert Init(init) + [Last(init)] == init;
      JoinSnoc(init, Last(parts), '\n');
      assert init + [Last(parts)] == parts;
    }
  }

  /** A chunk without a newline completes no line and only extends the
      carry. */
  lemma {:induction false} FeedCharsNoNewline(b: Buffer, text: string)
    requires '\n' !in text
    ensures FeedChars(b, text) == Buffer(b.lines, b.carry + text)
    decreases |text|
  {
    if text == "" {
      assert b.carry + text == b.carry;
    } else {
      assert text[0] in text;
      assert text[1..] == text[1..] && forall c :: c in text[1..] ==> c in text;
      FeedCharsNoNewline(Buffer(b.lines, b.carry + [text[0]]), text[1..]);
      assert b.carry + [text[0]] + text[1..] == b.carry + text;
    }
  }

  /** The split-based assembly of process_channel_text agrees with the
      reference definition: the carry plus the chunk, split at "\n", gives
      the new complete lines and, last, the new carry. */
  lemma {:induction false} FeedCharsSplit(lines: seq<string>, carry: string, text: string)
    requires '\n' !in carry
    ensures FeedChars(Buffer(lines, carry), text) ==
      Buffer(lines + Init(Split(carry + text, '\n')), Last(Split(carry + text, '\n')))
    decreases |text|
  {
    if text == "" {
      assert carry + text == carry;
      SplitNoSep(carry, '\n');
    } else if text[0] == '\n' {
      FeedCharsSplit(lines + [carry], "", text[1..]);
      assert carry + text == carry + ['\n'] + text[1..];
      SplitConcat(carry, text[1..], '\n');
      SplitNoSep(carry, '\n');
      assert "" + text[1..] == text[1..];
      var rest := Split(text[1..], '\n');
      assert Init([carry] + rest) == [carry] + Init(rest);
    } else {
      FeedCharsSplit(lines, carry + [text[0]], text[1..]);
      assert carry + [text[0]] + text[1..] == carry + text;
    }
  }

  // ---------------------------------------------------------------------
  // Properties of the read loop

  /** read_channel_until consumes chunks up to and including the first one
      that contains `end` once normalised; without `end` it consumes all
      of them. */
  lemma {:induction false} StopCountStops(chunks: seq<string>, end: Option<string>, commandEnd: Option<string>)
    requires commandEnd.Some? ==> commandEnd.value != ""
    ensures forall j :: 0 <= j < StopCount(chunks, end, commandEnd) - 1 ==> !Stops(chunks[j], end, commandEnd)
    ensures StopCount(chunks, end, commandEnd) < |chunks| ==>
      1 <= StopCount(chunks, end, commandEnd) && Stops(chunks[StopCount(chunks, end, commandEnd) - 1], end, commandEnd)
    ensures chunks != [] ==> StopCount(chunks, end, commandEnd) >= 1
    ensures end.None? ==> StopCount(chunks, end, commandEnd) == |chunks|
    decreases |chunks|
  {
    if chunks != [] && !Stops(chunks[0], end, commandEnd) {
      StopCountStops(chunks[1..], end, commandEnd);
      var k := StopCount(chunks[1..], end, commandEnd);
      forall j | 0 <= j < k
        ensures !Stops(chunks[j], end, commandEnd)
      {
        if j > 0 {
          assert chunks[j] == chunks[1..][j - 1];
        }
      }
    }
  }

  /** The lines read_channel_until collects, joined with the carried-over
      partial line, give back exactly the normalised text of the chunks it
      consumed; no collected line and not the carry contains a newline. */
  lemma ReadBufferLines(chunks: seq<string>, end: Option<string>, commandEnd: Option<string>)
    requires commandEnd.Some? ==> commandEnd.value != ""
    ensures var b := ReadBuffer(chunks, end, commandEnd);
      && Join(b.lines + [b.carry], '\n') == NormalizeAll(chunks[..StopCount(chunks, end, commandEnd)], commandEnd)
      && '\n' !in b.carry
      && forall i :: 0 <= i < |b.lines| ==> '\n' !in b.lines[i]
  {
    FeedCharsLines(NormalizeAll(chunks[..StopCount(chunks, end, commandEnd)], commandEnd));
  }

  /** Line assembly from an empty buffer cuts `text` at its newlines. */
  lemma FeedCharsLines(text: string)
    ensures var b := FeedChars(Buffer([], ""), text);
      && Join(b.lines + [b.carry], '\n') == text
      && '\n' !in b.carry
      && forall i :: 0 <= i < |b.lines| ==> '\n' !in b.lines[i]
  {
    FeedCharsSplit([], "", text);
    assert "" + text == text;
    var parts := Split(text, '\n');
    assert [] + Init(parts) == Init(parts);
    assert Init(parts) + [Last(parts)] == parts;
    JoinSplit(text, '\n');
  }

  /** A chunk shorter than the sentinel never stops the read. */
  lemma ShortChunkDoesNotStop(chunk: string)
    requires |chunk| < |Sentinel|
    ensures !Stops(chunk, Some(Sentinel), Some(SentinelEcho))
  {
    NormalizeShortens(chunk);
  }

  /** Normalisation under the sentinel echo never lengthens a chunk. */
  lemma NormalizeShortens(chunk: string)
    ensures |NormalizeChunk(chunk, Some(SentinelEcho))| <= |chunk|
  {
    var lf := Replace(chunk, "\r\n", "\n");
    ReplaceShortens(chunk, "\r\n", "\n");
    StripAnsiShortens(lf);
    ReplaceShortens(StripAnsi(lf), SentinelEcho, EndMarker);
  }

  /** A line without carriage returns or escapes, ended by CRLF, is only
      subject to the sentinel-echo rewrite. */
  lemma NormalizeLine(text: string)
    requires '\r' !in text && ESC !in text
    ensures NormalizeChunk(text + "\r\n", Some(SentinelEcho)) == Replace(text + "\n", SentinelEcho, EndMarker)
  {
    ReplaceSkipsPrefix(text, "\r\n", "\r\n", "\n");
    ReplaceWhole("\r\n", "\n");
    assert ESC !in text + "\n";
    StripAnsiNoEsc(text + "\n");
  }

  /** The echoed sentinel command does not stop the read: its line is
      rewritten to the end marker, which does not contain the sentinel. */
  lemma EchoDoesNotStop()
    ensures NormalizeChunk(SentinelEcho + "\r\n", Some(SentinelEcho)) == EndMarker + "\n"
    ensures !Stops(SentinelEcho + "\r\n", Some(Sentinel), Some(SentinelEcho))
  {
    NormalizeLine(SentinelEcho);
    ReplaceFront(SentinelEcho, "\n", EndMarker);
    ReplaceAbsent("\n", SentinelEcho, EndMarker);
    AbsentFirstChar(EndMarker + "\n", Sentinel);
  }

  /** An echo of the sentinel command cut before its closing quote is not
      rewritten, since the whole command text must be present for the
      rewrite, and the sentinel inside it stops the read early. */
  lemma EchoCutStops()
    ensures var cut := SentinelEcho[..|SentinelEcho| - 1];
      && NormalizeChunk(cut, Some(SentinelEcho)) == cut
      && Stops(cut, Some(Sentinel), Some(SentinelEcho))
  {
    var cut := SentinelEcho[..|SentinelEcho| - 1];
    assert cut == "echo '+++END+++";
    AbsentFirstChar(cut, "\r\n");
    ReplaceAbsent(cut, "\r\n", "\n");
    StripAnsiNoEsc(cut);
    assert !Contains(cut, SentinelEcho);
    ReplaceAbsent(cut, SentinelEcho, EndMarker);
    assert OccursAt(cut, Sentinel, 6);
  }

  /** The sentinel printed by the echo stops the read. */
  lemma SentinelStops()
    ensures Stops(Sentinel + "\r\n", Some(Sentinel), Some(SentinelEcho))
  {
    NormalizeLine(Sentinel);
    ReplaceAbsent(Sentinel + "\n", SentinelEcho, EndMarker);
    assert OccursAt(Sentinel + "\n", Sentinel, 0);
  }

  /** A sentinel that arrives split over two chunks is not recognised, and
      the read goes on to the following chunks. */
  lemma SplitSentinelMissed()
    ensures StopCount(["+++EN", "D+++\r\n", "$ "], Some(Sentinel), Some(SentinelEcho)) == 3
  {
    var chunks := ["+++EN", "D+++\r\n", "$ "];
    ShortChunkDoesNotStop(chunks[0]);
    ShortChunkDoesNotStop(chunks[1]);
    ShortChunkDoesNotStop(chunks[2]);
    assert chunks[1..][1..][1..] == [];
  }

  // ---------------------------------------------------------------------
  // Properties of escape stripping

  /** Removing escape sequences never lengthens the text. */
  lemma {:induction false} StripAnsiShortens(s: string)
    ensures |StripAnsi(s)| <= |s|
    decreases |s|
  {
    if s != "" {
      if EscapeMatch(s) > 0 {
        StripAnsiShortens(s[EscapeMatch(s)..]);
      } else {
        StripAnsiShortens(s[1..]);
      }
    }
  }

  /** Text before the first escape character is kept as it is. */
  lemma {:induction false} StripAnsiSkipsPrefix(a: string, b: string)
    requires ESC !in a
    ensures StripAnsi(a + b) == a + StripAnsi(b)
    decreases |a|
  {
    if a != "" {
      var ab := a + b;
      assert ab[0] == a[0] && ab[1..] == a[1..] + b;
      assert a[0] in a;
      StripAnsiSkipsPrefix(a[1..], b);
      calc {
        StripAnsi(ab);
        [a[0]] + StripAnsi(a[1..] + b);
        [a[0]] + (a[1..] + StripAnsi(b));
        { assert [a[0]] + a[1..] == a; }
        a + StripAnsi(b);
      }
    } else {
      assert a + b == b;
    }
  }

  /** Text without escape characters is unchanged. */
  lemma StripAnsiNoEsc(s: string)
    requires ESC !in s
    ensures StripAnsi(s) == s
  {
    StripAnsiSkipsPrefix(s, "");
    assert s + "" == s;
  }

  /** A two-character escape is removed. */
  lemma StripAnsiFe(c: char, rest: string)
    requires IsFe(c)
    ensures StripAnsi([ESC, c] + rest) == StripAnsi(rest)
  {
    assert ([ESC, c] + rest)[2..] == rest;
  }

  /** A control sequence ESC '[' parameters intermediates final is removed
      as a whole. */
  lemma StripAnsiCsi(params: string, inter: string, final: char, rest: string)
    requires forall i :: 0 <= i < |params| ==> '0' <= params[i] <= '?'
    requires forall i :: 0 <= i < |inter| ==> ' ' <= inter[i] <= '/'
    requires '@' <= final <= '~'
    ensures StripAnsi([ESC, '['] + params + inter + [final] + rest) == StripAnsi(rest)
  {
    var s := [ESC, '['] + params + inter + [final] + rest;
    var p := 2 + |params|;
    var q := p + |inter|;
    SkipRangeOver(s, 2, p, '0', '?');
    SkipRangeOver(s, p, q, ' ', '/');
    assert s[q] == final;
    assert s[q + 1..] == rest;
  }

  /** SkipRange stops exactly at `j` when `i..j` lies in the range and
      `s[j]` does not. */
  lemma {:induction false} SkipRangeOver(s: string, i: nat, j: nat, lo: char, hi: char)
    requires i <= j < |s|
    requires forall k :: i <= k < j ==> lo <= s[k] <= hi
    requires !(lo <= s[j] <= hi)
    ensures SkipRange(s, i, lo, hi) == j
    decreases j - i
  {
    if i < j {
      SkipRangeOver(s, i + 1, j, lo, hi);
    }
  }

  // ---------------------------------------------------------------------
  // Properties of the display filter

  /** Displaying any run of lines keeps the flag in step with the log and
      never logs two empty lines in a row. */
  lemma {:induction false} DisplayLinesValid(d: Display, lines: seq<string>)
    requires FlagTracksLog(d) && NoDoubleEmpty(d.shown)
    ensures FlagTracksLog(DisplayLines(d, lines)) && NoDoubleEmpty(DisplayLines(d, lines).shown)
    decreases |lines|
  {
    if lines != [] {
      DisplayLinesValid(d, lines[..|lines| - 1]);
      DisplayKeepsInvariant(DisplayLines(d, lines[..|lines| - 1]), lines[|lines| - 1]);
    }
  }

  /** In a run of empty lines only the first is logged, and none when
      the line logged before them was already empty. */
  lemma {:induction false} DisplayEmptyRun(d: Display, n: nat)
    ensures DisplayLines(d, seq(n, _ => "")).shown == d.shown + (if n > 0 && !d.skip then [""] else [])
    ensures n > 0 ==> DisplayLines(d, seq(n, _ => "")).skip
    decreases n
  {
    if n > 0 {
      var run := seq(n, _ => "");
      assert run[..n - 1] == seq(n - 1, _ => "");
      DisplayEmptyRun(d, n - 1);
    }
  }

  /** The log only grows, and its non-empty lines are exactly the
      non-empty lines displayed that do not end in a carriage return. */
  lemma {:induction false} DisplayLinesVisible(d: Display, lines: seq<string>)
    ensures d.shown <= DisplayLines(d, lines).shown
    ensures NonEmpty(DisplayLines(d, lines).shown) == NonEmpty(d.shown) + Visible(lines)
    decreases |lines|
  {
    if lines != [] {
      var init := lines[..|lines| - 1];
      DisplayLinesVisible(d, init);
      var before := DisplayLines(d, init);
      var line := lines[|lines| - 1];
      var vis := if line != "" && !EndsWith(line, "\r") then [line] else [];
      assert Visible(lines) == Visible(init) + vis;
      var after := DisplayLine(before, line);
      assert DisplayLines(d, lines) == after;
      if after.shown != before.shown {
        var x := if line == "" then "" else line;
        assert after.shown == before.shown + [x];
        assert after.shown[..|after.shown| - 1] == before.shown;
        assert NonEmpty(after.shown) == NonEmpty(before.shown) + vis;
      }
      assert NonEmpty(d.shown) + Visible(init) + vis == NonEmpty(d.shown) + (Visible(init) + vis);
    }
  }
}
