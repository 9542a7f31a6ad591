/** The `.dsc` rewriter of autobuild/tmstatic.py (update_dsc) and the
    checksum fields of autobuild/__main__.py: the lines of a Debian source
    control file are copied one by one, and inside the Checksums-Sha1,
    Checksums-Sha256 and Files sections the entry naming the updated file
    gets the new checksum and size. What sha1sum, sha256sum, md5sum and
    stat print are oracle strings. Lines keep their line terminators. */
module Dsc {
  import opened Text

  /** currentState: the section the rewriter is in. */
  datatype Section = NoSection | Sha1 | Sha256 | Files

  /** The checksums and size, as extracted from the tools' output. */
  datatype Sums = Sums(sha1: string, sha256: string, md5: string, size: string)

  /** Each checksum is the first space-separated field of its tool's
      output; the size is stat's output without its newlines. */
  function SumsOf(sha1Output: string, sha256Output: string, md5Output: string, statOutput: string): (s: Sums)
    ensures ' ' !in s.sha1 && ' ' !in s.sha256 && ' ' !in s.md5 && '\n' !in s.size
  {
    ReplaceRemovesChar(statOutput, '\n', "");
    Sums(FirstField(sha1Output), FirstField(sha256Output), FirstField(md5Output), Replace(statOutput, "\n", ""))
  }

  /** The section a header line opens, if the line is one. */
  function Header(line: string): Option<Section>
  {
    if StartsWith(line, "Checksums-Sha1:") then Some(Sha1)
    else if StartsWith(line, "Checksums-Sha256:") then Some(Sha256)
    else if StartsWith(line, "Files:") then Some(Files)
    else None
  }

  /** The section after reading `line` in `state`. */
  function Next(state: Section, line: string): Section
  {
    match Header(line)
    case Some(s) => s
    case None => state
  }

  /** The checksum a section lists. */
  function SumFor(state: Section, sums: Sums): string
  {
    match state
    case Sha1 => sums.sha1
    case Sha256 => sums.sha256
    case Files => sums.md5
    case NoSection => ""
  }

  /** The entry written for the updated file. */
  function Entry(state: Section, sums: Sums, file: string): string
  {
    " " + SumFor(state, sums) + " " + sums.size + " " + file + "\n"
  }

  /** A line to rewrite: an indented entry naming the file, in a section. */
  predicate Targets(state: Section, line: string, file: string)
  {
    Header(line).None? && StartsWith(line, " ") && state != NoSection && Contains(line, file)
  }

  /** What one line becomes in `state`. */
  function RewriteLine(state: Section, line: string, sums: Sums, file: string): string
  {
    if Targets(state, line, file) then Entry(state, sums, file) else line
  }

  /** The output for `lines` read from `state`, line by line. */
  function Rewrite(state: Section, lines: seq<string>, sums: Sums, file: string): seq<string>
    decreases |lines|
  {
    if lines == [] then []
    else [RewriteLine(state, lines[0], sums, file)] + Rewrite(Next(state, lines[0]), lines[1..], sums, file)
  }

  /** The section after reading `lines` from `state`. */
  function After(state: Section, lines: seq<string>): Section
    decreases |lines|
  {
    if lines == [] then state else After(Next(state, lines[0]), lines[1..])
  }

  /** update_dsc: the rewriting loop, driven by currentState. */
  method UpdateDsc(lines: seq<string>, file: string, sums: Sums) returns (output: seq<string>)
    ensures output == Rewrite(NoSection, lines, sums, file)
  {
    var currentState := NoSection;
    output := [];
    var i := 0;
    while i < |lines|
      invariant 0 <= i <= |lines|
      invariant output + Rewrite(currentState, lines[i..], sums, file) == Rewrite(NoSection, lines, sums, file)
    {
      RewriteStep(currentState, lines, sums, file, i);
      var written;
      currentState, written := UpdateLine(currentState, lines[i], file, sums);
      output := output + [written];
      i := i + 1;
    }
    assert lines[i..] == [];
  }

  /** One pass of the loop body: the new state and the line written. */
  method UpdateLine(state: Section, line: string, file: string, sums: Sums) returns (next: Section, written: string)
    ensures next == Next(state, line) && written == RewriteLine(state, line, sums, file)
  {
    next, written := state, line;
    if StartsWith(line, "Checksums-Sha1:") {
      next := Sha1;
    } else if StartsWith(line, "Checksums-Sha256:") {
      next := Sha256;
    } else if StartsWith(line, "Files:") {
      next := Files;
    } else if StartsWith(line, " ") {
      if state != NoSection && Contains(line, file) {
        written := Entry(state, sums, file);
      }
    }
  }

  lemma RewriteStep(state: Section, lines: seq<string>, sums: Sums, file: string, i: nat)
    requires i < |lines|
    ensures Rewrite(state, lines[i..], sums, file) ==
      [RewriteLine(state, lines[i], sums, file)] + Rewrite(Next(state, lines[i]), lines[i + 1..], sums, file)
  {
    assert lines[i..][1..] == lines[i + 1..];
  }

  // ---------------------------------------------------------------------
  // Properties

  /** One output line per input line. */
  lemma {:induction false} RewriteLength(state: Section, lines: seq<string>, sums: Sums, file: string)
    ensures |Rewrite(state, lines, sums, file)| == |lines|
    decreases |lines|
  {
    if lines != [] {
      RewriteLength(Next(state, lines[0]), lines[1..], sums, file);
    }
  }

  /** Output line `i` is input line `i` rewritten in the section the
      lines before it leave open. */
  lemma {:induction false} RewriteAt(state: Section, lines: seq<string>, sums: Sums, file: string, i: nat)
    requires i < |lines|
    ensures |Rewrite(state, lines, sums, file)| == |lines|
    ensures Rewrite(state, lines, sums, file)[i] == RewriteLine(After(state, lines[..i]), lines[i], sums, file)
    decreases i
  {
    RewriteLength(state, lines, sums, file);
    if i > 0 {
      RewriteAt(Next(state, lines[0]), lines[1..], sums, file, i - 1);
      assert lines[1..][..i - 1] == lines[..i][1..];
      assert lines[1..][i - 1] == lines[i];
    }
  }

  /** Headers are copied verbatim; a line changes only when it is an
      indented entry naming the file inside a section, and then it
      becomes the entry with that section's checksum. */
  lemma UpdateLines(lines: seq<string>, sums: Sums, file: string, i: nat)
    requires i < |lines|
    ensures |Rewrite(NoSection, lines, sums, file)| == |lines|
    ensures Header(lines[i]).Some? ==> Rewrite(NoSection, lines, sums, file)[i] == lines[i]
    ensures Rewrite(NoSection, lines, sums, file)[i] ==
      if Targets(After(NoSection, lines[..i]), lines[i], file)
      then Entry(After(NoSection, lines[..i]), sums, file)
      else lines[i]
  {
    RewriteAt(NoSection, lines, sums, file, i);
  }

  /** A line before any header is never rewritten. */
  lemma {:induction false} NoSectionBeforeHeader(lines: seq<string>)
    requires forall j :: 0 <= j < |lines| ==> Header(lines[j]).None?
    ensures After(NoSection, lines) == NoSection
    decreases |lines|
  {
    if lines != [] {
      NoSectionBeforeHeader(lines[1..]);
    }
  }

  /** The rewritten entry names the file and the size, and the checksum
      is the one the section lists. */
  lemma EntryShape(state: Section, sums: Sums, file: string)
    ensures StartsWith(Entry(state, sums, file), " ")
    ensures Header(Entry(state, sums, file)).None?
    ensures EndsWith(Entry(state, sums, file), file + "\n")
  {
    var e := Entry(state, sums, file);
    assert e[0] == ' ';
    assert e[|e| - |file + "\n"|..] == file + "\n";
  }

  /** Rewriting is idempotent: a second update with the same sums leaves
      the file as the first made it (a rewritten entry still names the
      file, so it is rewritten to itself). */
  lemma {:induction false} RewriteIdempotent(state: Section, lines: seq<string>, sums: Sums, file: string)
    ensures Rewrite(state, Rewrite(state, lines, sums, file), sums, file) == Rewrite(state, lines, sums, file)
    decreases |lines|
  {
    if lines != [] {
      var line := lines[0];
      var out := RewriteLine(state, line, sums, file);
      var rest := Rewrite(Next(state, line), lines[1..], sums, file);
      assert Rewrite(state, lines, sums, file) == [out] + rest;
      assert ([out] + rest)[0] == out && ([out] + rest)[1..] == rest;
      if Targets(state, line, file) {
        EntryShape(state, sums, file);
        EntryNamesFile(state, sums, file);
        assert Next(state, out) == Next(state, line);
      }
      RewriteIdempotent(Next(state, line), lines[1..], sums, file);
    }
  }

  lemma EntryNamesFile(state: Section, sums: Sums, file: string)
    ensures Contains(Entry(state, sums, file), file)
  {
    var e := Entry(state, sums, file);
    var k := |e| - |file| - 1;
    assert e[k..k + |file|] == file;
    assert OccursAt(e, file, k);
  }

  /** The checksum fields: "SUM  name\n" gives SUM, and a size "1234\n"
      gives 1234. */
  lemma SumsOfOutputs(sha1: string, sha256: string, md5: string, size: string, name: string)
    requires ' ' !in sha1 && ' ' !in sha256 && ' ' !in md5 && '\n' !in size
    ensures SumsOf(sha1 + "  " + name, sha256 + "  " + name, md5 + "  " + name, size + "\n") ==
      Sums(sha1, sha256, md5, size)
  {
    assert sha1 + "  " + name == sha1 + " " + (" " + name);
    assert sha256 + "  " + name == sha256 + " " + (" " + name);
    assert md5 + "  " + name == md5 + " " + (" " + name);
    FirstFieldOf(sha1, " " + name);
    FirstFieldOf(sha256, " " + name);
    FirstFieldOf(md5, " " + name);
    ReplaceSkipsPrefix(size, "\n", "\n", "");
    ReplaceWhole("\n", "");
  }
}
