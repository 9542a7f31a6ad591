/** The Open Build Service client of autobuild/openbuildservice.py: whether
    `osc results` still shows a build in progress, and how download_binaries
    turns each line of `osc getbinaries help` into a download. The output
    of osc and what each line's download meets are oracles. */
module Obs {
  import opened Text

  /** is_building: a package is still building, finished but not yet
      published, or waiting for a worker. */
  predicate IsBuilding(results: string)
  {
    Contains(results, "(building)") || Contains(results, "(finished)") || Contains(results, "(dispatching)")
  }

  /** One pass of `line.replace("  ", " ")`. */
  function Pass(s: string): string
  {
    Replace(s, "  ", " ")
  }

  /** The five passes download_binaries applies to a line. */
  function Collapse(line: string): string
  {
    Pass(Pass(Pass(Pass(Pass(line)))))
  }

  /** `os.path.join(a, b)` of two POSIX paths. */
  function PathJoin(a: string, b: string): string
  {
    if StartsWith(b, "/") then b
    else if a == "" || EndsWith(a, "/") then a + b
    else a + "/" + b
  }

  /** The directory a line's binaries go to: the collapsed line with its
      remaining spaces turned into "_", under `dest`. */
  function DirComponent(line: string): string
  {
    Replace(Collapse(line), " ", "_")
  }

  function DirName(dest: string, line: string): string
  {
    PathJoin(dest, DirComponent(line))
  }

  /** What the download of one line meets: changing into the package
      directory fails, listing the download directory fails, or it lists
      `n` entries. Each failure is caught and the loop goes on. */
  datatype Outcome = ChdirFails | ListFails | Listed(n: nat)

  /** The commands one line issues. */
  function LineCommands(dest: string, line: string, outcome: Outcome): seq<string>
  {
    if Contains(line, "Invalid") then []
    else
      var l := Collapse(line);
      var dir := DirName(dest, line);
      match outcome
      case ChdirFails => []
      case ListFails => ["osc getbinaries " + l + " -d " + dir]
      case Listed(n) =>
        ["osc getbinaries " + l + " -d " + dir] + (if n < 3 then ["rm -rf " + dir] else [])
  }

  /** The commands download_binaries issues for `lines`, in order. */
  function DownloadCommands(dest: string, lines: seq<string>, outcomes: seq<Outcome>): seq<string>
    requires |outcomes| == |lines|
  {
    if lines == [] then []
    else LineCommands(dest, lines[0], outcomes[0]) + DownloadCommands(dest, lines[1..], outcomes[1..])
  }

  /** download_binaries over the lines of the binaries list. */
  method DownloadBinaries(dest: string, lines: seq<string>, outcomes: seq<Outcome>) returns (issued: seq<string>)
    requires |outcomes| == |lines|
    ensures issued == DownloadCommands(dest, lines, outcomes)
  {
    issued := [];
    var i := 0;
    while i < |lines|
      invariant 0 <= i <= |lines|
      invariant issued + DownloadCommands(dest, lines[i..], outcomes[i..]) == DownloadCommands(dest, lines, outcomes)
    {
      assert lines[i..][1..] == lines[i + 1..] && outcomes[i..][1..] == outcomes[i + 1..];
      var commands := DownloadLine(dest, lines[i], outcomes[i]);
      issued := issued + commands;
      i := i + 1;
    }
    assert lines[i..] == [];
  }

  /** The body of the loop for one line. */
  method DownloadLine(dest: string, line: string, outcome: Outcome) returns (commands: seq<string>)
    ensures commands == LineCommands(dest, line, outcome)
  {
    commands := [];
    if Contains(line, "Invalid") {
      return;
    }
    var l := line;
    for k := 0 to 5
      invariant l == PassTimes(line, k)
    {
      l := Pass(l);
    }
    CollapseIsFivePasses(line);
    var dirname := PathJoin(dest, Replace(l, " ", "_"));
    match outcome {
      case ChdirFails =>
      case ListFails =>
        commands := ["osc getbinaries " + l + " -d " + dirname];
      case Listed(n) =>
        commands := ["osc getbinaries " + l + " -d " + dirname];
        if n < 3 {
          commands := commands + ["rm -rf " + dirname];
        }
    }
  }

  /** `k` passes. */
  function PassTimes(s: string, k: nat): string
  {
    if k == 0 then s else Pass(PassTimes(s, k - 1))
  }

  lemma CollapseIsFivePasses(s: string)
    ensures PassTimes(s, 5) == Collapse(s)
  {
    assert PassTimes(s, 1) == Pass(s);
    assert PassTimes(s, 2) == Pass(Pass(s));
    assert PassTimes(s, 3) == Pass(Pass(Pass(s)));
    assert PassTimes(s, 4) == Pass(Pass(Pass(Pass(s))));
  }

  // ---------------------------------------------------------------------
  // Properties

  /** The three states are recognised wherever they appear, and results
      without a "(" never count as building. */
  lemma IsBuildingOf(pre: string, state: string, post: string)
    requires state == "(building)" || state == "(finished)" || state == "(dispatching)"
    ensures IsBuilding(pre + state + post)
  {
    assert (pre + state + post)[|pre|..|pre| + |state|] == state;
    assert OccursAt(pre + state + post, state, |pre|);
  }

  lemma NotBuilding(results: string)
    requires '(' !in results
    ensures !IsBuilding(results)
  {
    AbsentFirstChar(results, "(building)");
    AbsentFirstChar(results, "(finished)");
    AbsentFirstChar(results, "(dispatching)");
  }

  /** A line naming "Invalid" issues nothing. */
  lemma InvalidSkipped(dest: string, line: string, outcome: Outcome)
    requires Contains(line, "Invalid")
    ensures LineCommands(dest, line, outcome) == []
  {
  }

  /** A failure in one line does not affect the others: the commands of a
      list are those of its parts, one after the other. */
  lemma {:induction false} DownloadAppend(dest: string, a: seq<string>, oa: seq<Outcome>, b: seq<string>, ob: seq<Outcome>)
    requires |oa| == |a| && |ob| == |b|
    ensures DownloadCommands(dest, a + b, oa + ob) == DownloadCommands(dest, a, oa) + DownloadCommands(dest, b, ob)
    decreases |a|
  {
    if a == [] {
      assert a + b == b && oa + ob == ob;
    } else {
      assert (a + b)[0] == a[0] && (a + b)[1..] == a[1..] + b;
      assert (oa + ob)[0] == oa[0] && (oa + ob)[1..] == oa[1..] + ob;
      DownloadAppend(dest, a[1..], oa[1..], b, ob);
    }
  }

  /** The collapsed line is never longer than the line. */
  lemma CollapseShortens(line: string)
    ensures |Collapse(line)| <= |line|
  {
    var s1 := Pass(line);
    var s2 := Pass(s1);
    var s3 := Pass(s2);
    var s4 := Pass(s3);
    ReplaceShortens(line, "  ", " ");
    ReplaceShortens(s1, "  ", " ");
    ReplaceShortens(s2, "  ", " ");
    ReplaceShortens(s3, "  ", " ");
    ReplaceShortens(s4, "  ", " ");
  }

  /** The characters other than spaces, in order. */
  function Words(s: string): string
    decreases |s|
  {
    if s == "" then "" else (if s[0] == ' ' then "" else [s[0]]) + Words(s[1..])
  }

  /** A pass touches only spaces. */
  lemma {:induction false} PassKeepsWords(s: string)
    ensures Words(Pass(s)) == Words(s)
    decreases |s|
  {
    if s != "" {
      if StartsWith(s, "  ") {
        PassKeepsWords(s[2..]);
        var t := Pass(s[2..]);
        assert Pass(s) == " " + t;
        assert (" " + t)[1..] == t;
        assert s[1..][1..] == s[2..];
      } else {
        PassKeepsWords(s[1..]);
        assert Pass(s) == [s[0]] + Pass(s[1..]);
        assert ([s[0]] + Pass(s[1..]))[1..] == Pass(s[1..]);
      }
    }
  }

  /** The collapsed line has the same non-space characters, in order. */
  lemma CollapseKeepsWords(line: string)
    ensures Words(Collapse(line)) == Words(line)
  {
    var s1 := Pass(line);
    var s2 := Pass(s1);
    var s3 := Pass(s2);
    var s4 := Pass(s3);
    PassKeepsWords(line);
    PassKeepsWords(s1);
    PassKeepsWords(s2);
    PassKeepsWords(s3);
    PassKeepsWords(s4);
  }

  function Spaces(n: nat): string
  {
    seq(n, _ => ' ')
  }

  /** A pass halves a run of spaces, rounding up, and leaves what follows
      the run to the rest of the pass. */
  lemma {:induction false} PassRun(n: nat, rest: string)
    requires rest == "" || rest[0] != ' '
    ensures Pass(Spaces(n) + rest) == Spaces((n + 1) / 2) + Pass(rest)
    decreases n
  {
    var s := Spaces(n) + rest;
    if n == 0 {
      assert s == rest;
    } else if n == 1 {
      OneSpace(rest);
    } else {
      assert s[..2] == "  ";
      assert s[2..] == Spaces(n - 2) + rest;
      PassRun(n - 2, rest);
      assert " " + Spaces((n - 1) / 2) == Spaces((n + 1) / 2);
    }
  }

  lemma OneSpace(rest: string)
    requires rest == "" || rest[0] != ' '
    ensures Pass(Spaces(1) + rest) == " " + Pass(rest)
  {
    var s := Spaces(1) + rest;
    assert s[1..] == rest;
    if |s| >= 2 {
      assert s[1] == rest[0];
      assert s[..2] != "  " by {
        assert s[..2][1] == s[1];
      }
    }
  }

  /** A pass keeps a first character that is not a space. */
  lemma PassHead(rest: string)
    requires rest == "" || rest[0] != ' '
    ensures Pass(rest) == "" || Pass(rest)[0] != ' '
    ensures rest != "" ==> Pass(rest) != "" && Pass(rest)[0] == rest[0]
  {
    if rest != "" {
      assert !StartsWith(rest, "  ");
    }
  }

  /** One pass on a run before text not starting with a space: the run
      halved, and the text still not starting with a space. */
  lemma PassRunHead(n: nat, rest: string)
    requires rest == "" || rest[0] != ' '
    ensures Pass(Spaces(n) + rest) == Spaces((n + 1) / 2) + Pass(rest)
    ensures Pass(rest) == "" || Pass(rest)[0] != ' '
  {
    PassRun(n, rest);
    PassHead(rest);
  }

  /** Five passes collapse any run of 1 to 32 spaces to one space. */
  lemma CollapseRun(n: nat, rest: string)
    requires 1 <= n <= 32
    requires rest == "" || rest[0] != ' '
    ensures Collapse(Spaces(n) + rest) == " " + Collapse(rest)
  {
    var m1 := (n + 1) / 2;
    var m2 := (m1 + 1) / 2;
    var m3 := (m2 + 1) / 2;
    var m4 := (m3 + 1) / 2;
    var m5 := (m4 + 1) / 2;
    assert 1 <= m1 <= 16 && 1 <= m2 <= 8 && 1 <= m3 <= 4 && 1 <= m4 <= 2 && m5 == 1;
    var r1 := Pass(rest);
    var r2 := Pass(r1);
    var r3 := Pass(r2);
    var r4 := Pass(r3);
    PassRunHead(n, rest);
    PassRunHead(m1, r1);
    PassRunHead(m2, r2);
    PassRunHead(m3, r3);
    PassRunHead(m4, r4);
    assert Spaces(1) == " ";
  }

  /** Thirty-three spaces are too many for five passes: two remain. */
  lemma CollapseRunTight()
    ensures Collapse(Spaces(33)) == "  "
  {
    assert Pass("") == "";
    assert Spaces(33) + "" == Spaces(33);
    PassRun(33, "");
    assert Spaces(17) + "" == Spaces(17);
    PassRun(17, "");
    assert Spaces(9) + "" == Spaces(9);
    PassRun(9, "");
    assert Spaces(5) + "" == Spaces(5);
    PassRun(5, "");
    assert Spaces(3) + "" == Spaces(3);
    PassRun(3, "");
    assert Spaces(2) + "" == Spaces(2);
    assert Spaces(2) == "  ";
  }

  /** Text without spaces passes through unchanged, before a run. */
  lemma CollapseWord(word: string, rest: string)
    requires ' ' !in word
    ensures Collapse(word + rest) == word + Collapse(rest)
  {
    var r1 := Pass(rest);
    var r2 := Pass(r1);
    var r3 := Pass(r2);
    var r4 := Pass(r3);
    ReplaceSkipsPrefix(word, rest, "  ", " ");
    ReplaceSkipsPrefix(word, r1, "  ", " ");
    ReplaceSkipsPrefix(word, r2, "  ", " ");
    ReplaceSkipsPrefix(word, r3, "  ", " ");
    ReplaceSkipsPrefix(word, r4, "  ", " ");
  }

  /** The directory component holds no space. */
  lemma DirComponentNoSpace(line: string)
    ensures ' ' !in DirComponent(line)
  {
    ReplaceRemovesChar(Collapse(line), ' ', "_");
  }

  /** A line of two fields separated by up to 32 spaces, such as
      "openSUSE_Tumbleweed    x86_64", is downloaded as the two fields
      separated by one space, into a directory joining them with "_". */
  lemma TwoFields(w1: string, n: nat, w2: string)
    requires ' ' !in w1 && ' ' !in w2 && 1 <= n <= 32
    ensures Collapse(w1 + Spaces(n) + w2) == w1 + " " + w2
    ensures DirComponent(w1 + Spaces(n) + w2) == w1 + "_" + w2
  {
    assert w1 + Spaces(n) + w2 == w1 + (Spaces(n) + w2);
    CollapseWord(w1, Spaces(n) + w2);
    CollapseRun(n, w2);
    assert w2 + "" == w2;
    CollapseWord(w2, "");
    assert Pass("") == "";
    assert w1 + " " + w2 == w1 + (" " + w2);
    ReplaceSkipsPrefix(w1, " " + w2, " ", "_");
    ReplaceFront(" ", w2, "_");
    ReplaceSkipsPrefix(w2, "", " ", "_");
    assert Replace("", " ", "_") == "";
  }
}
