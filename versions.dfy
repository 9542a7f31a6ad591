/** Version strings of autobuild/texmacsrepo.py and autobuild/tmstatic.py:
    comparing two dotted versions (highestVersion, in a padded and an
    unpadded variant), scanning a change log for versions and folding the
    comparison over them. Python's IndexError, raised when the comparison
    runs past the end of the second version, is the result None. */
module Versions {
  import opened Text
  import Svn

  predicate IsDigit(c: char)
  {
    '0' <= c <= '9'
  }

  /** A component `int()` accepts; signs, blanks and underscores, which
      Python also accepts, are not modelled. */
  predicate IsDigits(s: string)
  {
    s != "" && forall i :: 0 <= i < |s| ==> IsDigit(s[i])
  }

  function DigitValue(c: char): nat
  {
    if IsDigit(c) then c as int - '0' as int else 0
  }

  function DigitsValue(s: string): nat
    decreases |s|
  {
    if s == "" then 0 else 10 * DigitsValue(s[..|s| - 1]) + DigitValue(s[|s| - 1])
  }

  /** `[int(x) for x in v.split(".")]`, or None when a component is not a
      number. */
  function Components(v: string): (r: Option<seq<nat>>)
    ensures r.Some? ==> |r.value| == |Split(v, '.')|
  {
    var parts := Split(v, '.');
    if forall i :: 0 <= i < |parts| ==> IsDigits(parts[i]) then
      Some(seq(|parts|, i requires 0 <= i < |parts| => DigitsValue(parts[i])))
    else None
  }

  /** `pad` zeros: texmacsrepo.py appends two to each list, tmstatic.py none. */
  function Zeros(pad: nat): seq<nat>
  {
    seq(pad, _ => 0)
  }

  /** The comparison loop from index `i` over the length of `c1`: Some(true)
      returns version1, Some(false) version2, None is the IndexError of a
      `c2` that is too short. */
  function Compare(c1: seq<nat>, c2: seq<nat>, i: nat): Option<bool>
    decreases |c1| - i
  {
    if i >= |c1| then Some(true)
    else if i >= |c2| then None
    else if c1[i] > c2[i] then Some(true)
    else if c1[i] < c2[i] then Some(false)
    else Compare(c1, c2, i + 1)
  }

  /** highestVersion(version1, version2) with `pad` trailing zeros added to
      the second list. */
  function Highest(v1: string, v2: string, pad: nat): Option<string>
  {
    match Components(v1)
    case None => Some(v2)
    case Some(c1) =>
      match Components(v2)
      case None => Some(v1)
      case Some(c2) =>
        match Compare(c1, c2 + Zeros(pad), 0)
        case None => None
        case Some(first) => Some(if first then v1 else v2)
  }

  /** The pad of TexmacsSVN.highestVersion and of the module-level
      highestVersion of tmstatic.py. */
  const RepoPad: nat := 2
  const StaticPad: nat := 0

  /** `version` folded with highestVersion over `candidates`, in order; an
      IndexError anywhere ends the fold. */
  function Fold(version: string, candidates: seq<string>, pad: nat): Option<string>
    decreases |candidates|
  {
    if candidates == [] then Some(version)
    else
      match Highest(version, candidates[0], pad)
      case None => None
      case Some(v) => Fold(v, candidates[1..], pad)
  }

  /** highestVersion as the source writes it: parse both, append the
      zeros, compare component by component over version1's length. */
  method HighestVersion(v1: string, v2: string, pad: nat) returns (r: Option<string>)
    ensures r == Highest(v1, v2, pad)
  {
    var p1 := Components(v1);
    if p1.None? {
      return Some(v2);
    }
    var p2 := Components(v2);
    if p2.None? {
      return Some(v1);
    }
    var c1, c2 := p1.value, p2.value + Zeros(pad);
    for i := 0 to |c1|
      invariant Compare(c1, c2, i) == Compare(c1, c2, 0)
    {
      if i >= |c2| {
        return None;
      }
      if c1[i] > c2[i] {
        return Some(v1);
      } else if c1[i] < c2[i] {
        return Some(v2);
      }
    }
    return Some(v1);
  }

  // ---------------------------------------------------------------------
  // The change-log scan of texmacsrepo.py: \((\d+\.\d+(\.\d+)?)\)

  /** The length of the run of digits at `p`. */
  function DigitRun(s: string, p: nat): (n: nat)
    ensures p + n <= |s| || (p > |s| && n == 0)
    ensures forall i :: p <= i < p + n ==> IsDigit(s[i])
    ensures p + n < |s| ==> !IsDigit(s[p + n])
    decreases |s| - p
  {
    if p < |s| && IsDigit(s[p]) then 1 + DigitRun(s, p + 1) else 0
  }

  /** The match of the pattern at `p`, if any: the version (group 1) and
      the index after the closing parenthesis. */
  function MatchAt(s: string, p: nat): (r: Option<(string, nat)>)
    ensures r.Some? ==> p < r.value.1 <= |s|
  {
    if p + 1 >= |s| || s[p] != '(' then None
    else
      match VersionAt(s, p + 1)
      case None => None
      case Some(e) => Some((s[p + 1..e], e + 1))
  }

  /** The end of `\d+\.\d+(\.\d+)?` at `a` when a ")" follows it. The
      digit runs are maximal, as backtracking cannot make a shorter run
      match. */
  function VersionAt(s: string, a: nat): (e: Option<nat>)
    ensures e.Some? ==> a < e.value < |s| && s[e.value] == ')'
  {
    var n1 := DigitRun(s, a);
    if n1 == 0 || a + n1 >= |s| || s[a + n1] != '.' then None
    else TailAt(s, a + n1 + 1)
  }

  /** The end of `\d+(\.\d+)?` at `b` when a ")" follows it. */
  function TailAt(s: string, b: nat): (e: Option<nat>)
    ensures e.Some? ==> b < e.value < |s| && s[e.value] == ')'
  {
    var n2 := DigitRun(s, b);
    if n2 == 0 || b + n2 >= |s| then None
    else if s[b + n2] == ')' then Some(b + n2)
    else if s[b + n2] != '.' then None
    else
      var c := b + n2 + 1;
      var n3 := DigitRun(s, c);
      if n3 == 0 || c + n3 >= |s| || s[c + n3] != ')' then None
      else Some(c + n3)
  }

  /** `findall` from `p`: leftmost matches, scanning on after each one. */
  function FindAll(s: string, p: nat): seq<string>
    decreases |s| - p
  {
    if p >= |s| then []
    else
      match MatchAt(s, p)
      case Some(m) => [m.0] + FindAll(s, m.1)
      case None => FindAll(s, p + 1)
  }

  /** _parseTexmacsVersion: the highest version in the change log, from
      "0.0.0". */
  function ChangeLogVersion(content: string): Option<string>
  {
    Fold("0.0.0", FindAll(content, 0), RepoPad)
  }

  method ParseTexmacsVersion(content: string) returns (version: Option<string>)
    ensures version == ChangeLogVersion(content)
  {
    var matches := FindAll(content, 0);
    var v := "0.0.0";
    var i := 0;
    while i < |matches|
      invariant 0 <= i <= |matches|
      invariant Fold(v, matches[i..], RepoPad) == Fold("0.0.0", matches, RepoPad)
    {
      var next := HighestVersion(v, matches[i], RepoPad);
      if next.None? {
        return None;
      }
      v := next.value;
      i := i + 1;
    }
    return Some(v);
  }

  // ---------------------------------------------------------------------
  // The change-log scan of tmstatic.py: <TeXmacs|…>

  const Tag: string := "<TeXmacs|"

  /** The candidate of a line holding the tag: from 9 characters after it
      (its length) up to the next ">" after the tag. */
  function TagCandidate(line: string): (r: Option<string>)
    ensures r.Some? <==> Contains(line, Tag)
  {
    var index := Find(line, Tag, 0);
    if index < 0 then None
    else Some(PySlice(line, index + 9, Find(line, ">", index)))
  }

  function TagCandidates(lines: seq<string>): seq<string>
  {
    if lines == [] then []
    else
      var rest := TagCandidates(lines[1..]);
      match TagCandidate(lines[0])
      case Some(v) => [v] + rest
      case None => rest
  }

  /** parseTexmacsVersion(folder, oldversion) over the lines of the log. */
  function TagVersion(lines: seq<string>, oldversion: string): Option<string>
  {
    Fold(oldversion, TagCandidates(lines), StaticPad)
  }

  method ParseTagVersion(lines: seq<string>, oldversion: string) returns (version: Option<string>)
    ensures version == TagVersion(lines, oldversion)
  {
    var v := oldversion;
    var i := 0;
    while i < |lines|
      invariant 0 <= i <= |lines|
      invariant Fold(v, TagCandidates(lines[i..]), StaticPad) == TagVersion(lines, oldversion)
    {
      TagStep(lines, i);
      var index := Find(lines[i], Tag, 0);
      if index >= 0 {
        var index2 := Find(lines[i], ">", index);
        var candidate := PySlice(lines[i], index + 9, index2);
        FoldCons(v, candidate, TagCandidates(lines[i + 1..]), StaticPad);
        var next := HighestVersion(v, candidate, StaticPad);
        if next.None? {
          return None;
        }
        v := next.value;
      }
      i := i + 1;
    }
    return Some(v);
  }

  lemma TagStep(lines: seq<string>, i: nat)
    requires i < |lines|
    ensures TagCandidate(lines[i]).None? ==> TagCandidates(lines[i..]) == TagCandidates(lines[i + 1..])
    ensures TagCandidate(lines[i]).Some? ==>
      TagCandidates(lines[i..]) == [TagCandidate(lines[i]).value] + TagCandidates(lines[i + 1..])
  {
    assert lines[i..][1..] == lines[i + 1..];
  }

  lemma FoldCons(v: string, c: string, rest: seq<string>, pad: nat)
    ensures Fold(v, [c] + rest, pad) ==
      match Highest(v, c, pad)
      case None => None
      case Some(w) => Fold(w, rest, pad)
  {
    assert ([c] + rest)[1..] == rest;
  }

  /** TexmacsSVN: a working copy that also records the version of its
      change log after each checkout and update. */
  class TexmacsRepo {
    const svn: Svn.Repository
    var version: Option<string>

    constructor (svn: Svn.Repository)
      ensures this.svn == svn && version == Some("")
    {
      this.svn := svn;
      version := Some("");
    }

    /** co(): check out, then read the version of the change log. */
    method Co(content: string)
      modifies this`version
      ensures version == ChangeLogVersion(content)
    {
      version := ParseTexmacsVersion(content);
    }

    /** up(): update (`svn up` printed `output`), then read the version. */
    method Up(output: string, content: string)
      modifies svn`hasBeenUpdated, svn`revision, this`version
      ensures (svn.revision, svn.hasBeenUpdated) == Svn.UpState(old(svn.revision), output)
      ensures version == ChangeLogVersion(content)
    {
      svn.Up(output);
      version := ParseTexmacsVersion(content);
    }
  }

  // ---------------------------------------------------------------------
  // Properties of highestVersion

  /** The result is always one of the two arguments. */
  lemma HighestIsArgument(v1: string, v2: string, pad: nat)
    ensures Highest(v1, v2, pad).Some? ==>
      Highest(v1, v2, pad).value == v1 || Highest(v1, v2, pad).value == v2
  {
  }

  /** An unparsable first version yields the second; otherwise an
      unparsable second version yields the first. */
  lemma HighestUnparsable(v1: string, v2: string, pad: nat)
    ensures Components(v1).None? ==> Highest(v1, v2, pad) == Some(v2)
    ensures Components(v1).Some? && Components(v2).None? ==> Highest(v1, v2, pad) == Some(v1)
    ensures Highest("", v2, pad) == Some(v2)
  {
    assert Split("", '.') == [""];
  }

  /** The comparison fails only when the first version is longer than the
      second plus the padding. */
  lemma {:induction false} CompareDefined(c1: seq<nat>, c2: seq<nat>, i: nat)
    requires |c1| <= |c2|
    ensures Compare(c1, c2, i).Some?
    decreases |c1| - i
  {
    if i < |c1| && c1[i] == c2[i] {
      CompareDefined(c1, c2, i + 1);
    }
  }

  /** The comparison runs past the second list exactly when the first is
      longer and the two agree all along the second. */
  lemma {:induction false} CompareNone(c1: seq<nat>, c2: seq<nat>, i: nat)
    requires i <= |c2|
    ensures Compare(c1, c2, i) == None <==> |c2| < |c1| && forall k :: i <= k < |c2| ==> c1[k] == c2[k]
    decreases |c2| - i
  {
    if i < |c2| && i < |c1| && c1[i] == c2[i] {
      CompareNone(c1, c2, i + 1);
    }
  }

  /** highestVersion raises exactly when version1, compared against the
      padded version2, is longer and agrees with it all along. */
  lemma HighestRaises(v1: string, v2: string, pad: nat)
    requires Components(v1).Some? && Components(v2).Some?
    ensures Highest(v1, v2, pad) == None <==>
      && |Components(v2).value| + pad < |Components(v1).value|
      && forall k :: 0 <= k < |Components(v2).value| + pad ==>
           Components(v1).value[k] == (Components(v2).value + Zeros(pad))[k]
  {
    CompareNone(Components(v1).value, Components(v2).value + Zeros(pad), 0);
  }

  lemma HighestDefined(v1: string, v2: string, pad: nat)
    requires Components(v1).Some? && Components(v2).Some?
    requires |Components(v1).value| <= |Components(v2).value| + pad
    ensures Highest(v1, v2, pad).Some?
  {
    CompareDefined(Components(v1).value, Components(v2).value + Zeros(pad), 0);
  }

  /** `x` is below `y` in the lexicographic order of equal-length lists:
      they agree up to the first difference, where `x` is smaller. */
  predicate LexLess(x: seq<nat>, y: seq<nat>)
    requires |x| <= |y|
  {
    exists k :: 0 <= k < |x| && x[..k] == y[..k] && x[k] < y[k]
  }

  /** The loop is the lexicographic order: from `i`, with agreement before
      `i`, it returns version2 exactly when `c1` is below `c2` over
      `c1`'s length. */
  lemma {:induction false} CompareLex(c1: seq<nat>, c2: seq<nat>, i: nat)
    requires |c1| <= |c2| && i <= |c1| && c1[..i] == c2[..i]
    ensures Compare(c1, c2, i) == Some(!LexLess(c1, c2))
    decreases |c1| - i
  {
    if i == |c1| {
    } else if c1[i] > c2[i] {
    } else if c1[i] < c2[i] {
      assert c1[..i] == c2[..i] && c1[i] < c2[i];
    } else {
      assert c1[..i + 1] == c2[..i + 1] by {
        assert c1[..i + 1] == c1[..i] + [c1[i]] && c2[..i + 1] == c2[..i] + [c2[i]];
      }
      CompareLex(c1, c2, i + 1);
    }
  }

  /** highestVersion returns version2 exactly when version1, over its own
      length, is lexicographically below version2 padded with zeros; ties
      return version1. */
  lemma HighestLex(v1: string, v2: string, pad: nat)
    requires Components(v1).Some? && Components(v2).Some?
    requires |Components(v1).value| <= |Components(v2).value| + pad
    ensures Highest(v1, v2, pad) ==
      Some(if LexLess(Components(v1).value, Components(v2).value + Zeros(pad)) then v2 else v1)
  {
    CompareLex(Components(v1).value, Components(v2).value + Zeros(pad), 0);
  }

  /** Equal lists compare as a tie, so a version is never above itself. */
  lemma HighestSelf(v: string, pad: nat)
    ensures Highest(v, v, pad) == Some(v)
  {
    if Components(v).Some? {
      var c := Components(v).value;
      var c2 := c + Zeros(pad);
      assert c2[..0] == c[..0];
      CompareLex(c, c2, 0);
    }
  }

  /** Numbers joined with "." parse back into those numbers. */
  lemma ComponentsJoin(parts: seq<string>)
    requires |parts| >= 1 && forall i :: 0 <= i < |parts| ==> IsDigits(parts[i])
    ensures Components(Join(parts, '.')).Some?
    ensures |Components(Join(parts, '.')).value| == |parts|
    ensures forall i :: 0 <= i < |parts| ==> Components(Join(parts, '.')).value[i] == DigitsValue(parts[i])
  {
    forall i | 0 <= i < |parts|
      ensures '.' !in parts[i]
    {
      DigitsNoDot(parts[i]);
    }
    SplitJoin(parts, '.');
  }

  lemma DigitValueOf(c: char)
    requires IsDigit(c)
    ensures DigitsValue([c]) == c as int - '0' as int
  {
    assert [c][..0] == [];
  }

  /** The components of a version written with one-digit numbers. */
  lemma ComponentsOfDigits(v: string, parts: seq<string>, values: seq<nat>)
    requires |parts| >= 1 && |values| == |parts| && v == Join(parts, '.')
    requires forall i :: 0 <= i < |parts| ==> |parts[i]| == 1 && IsDigit(parts[i][0])
    requires forall i :: 0 <= i < |parts| ==> values[i] == parts[i][0] as int - '0' as int
    ensures Components(v) == Some(values)
  {
    forall i | 0 <= i < |parts|
      ensures IsDigits(parts[i]) && DigitsValue(parts[i]) == values[i]
    {
      assert parts[i] == [parts[i][0]];
      DigitValueOf(parts[i][0]);
    }
    ComponentsJoin(parts);
    var c := Components(v).value;
    assert c == values;
  }

  /** A tie over version1's length returns version1: "2.1" against
      "2.1.5" is "2.1". */
  lemma HighestTie()
    ensures Highest("2.1", "2.1.5", RepoPad) == Some("2.1")
    ensures Highest("2.1", "2.1.5", StaticPad) == Some("2.1")
  {
    ComponentsOfDigits("2.1", ["2", "1"], [2, 1]);
    ComponentsOfDigits("2.1.5", ["2", "1", "5"], [2, 1, 5]);
  }

  /** A first version longer than the second plus the padding, and equal
      to it up to there, raises: "1.0.0.0" against "1". */
  lemma HighestIndexError()
    ensures Highest("1.0.0.0", "1", RepoPad) == None
  {
    ComponentsFourParts();
    ComponentsOfDigits("1", ["1"], [1]);
    assert [1] + Zeros(RepoPad) == [1, 0, 0];
    HighestRaises("1.0.0.0", "1", RepoPad);
  }

  lemma ComponentsFourParts()
    ensures Components("1.0.0.0") == Some([1, 0, 0, 0])
  {
    ComponentsOfDigits("1.0.0.0", ["1", "0", "0", "0"], [1, 0, 0, 0]);
  }

  /** Without padding, "1.0" against "1" raises. */
  lemma HighestStaticIndexError()
    ensures Highest("1.0", "1", StaticPad) == None
  {
    ComponentsOfDigits("1.0", ["1", "0"], [1, 0]);
    ComponentsOfDigits("1", ["1"], [1]);
  }

  /** The unpadded comparison does not raise when it decides early:
      "2.0" against "1" is "2.0". */
  lemma HighestEarly()
    ensures Highest("2.0", "1", StaticPad) == Some("2.0")
  {
    ComponentsOfDigits("2.0", ["2", "0"], [2, 0]);
    ComponentsOfDigits("1", ["1"], [1]);
  }

  // ---------------------------------------------------------------------
  // Properties of the scans

  /** Every version the change-log scan finds has two or three numeric
      components. */
  lemma {:induction false} FindAllShape(s: string, p: nat)
    ensures forall m :: m in FindAll(s, p) ==> Components(m).Some? && 2 <= |Components(m).value| <= 3
    decreases |s| - p
  {
    if p < |s| {
      match MatchAt(s, p)
      case Some(m) =>
        FindAllShape(s, m.1);
        MatchShape(s, p);
      case None =>
        FindAllShape(s, p + 1);
    }
  }

  lemma MatchShape(s: string, p: nat)
    requires MatchAt(s, p).Some?
    ensures Components(MatchAt(s, p).value.0).Some?
    ensures 2 <= |Components(MatchAt(s, p).value.0).value| <= 3
  {
    VersionShape(s, p + 1);
  }

  /** The version group has two or three components. */
  lemma VersionShape(s: string, a: nat)
    requires VersionAt(s, a).Some?
    ensures Components(s[a..VersionAt(s, a).value]).Some?
    ensures 2 <= |Components(s[a..VersionAt(s, a).value]).value| <= 3
  {
    var n1 := DigitRun(s, a);
    var b := a + n1 + 1;
    var e := TailAt(s, b).value;
    var d1 := s[a..a + n1];
    assert IsDigits(d1);
    assert e == VersionAt(s, a).value;
    TailShape(s, b);
    SliceAround(s, a, a + n1, e);
    ShapeOfTail(s[a..e], d1, s[b..e]);
  }

  lemma SliceAround<T>(s: seq<T>, a: nat, m: nat, e: nat)
    requires a <= m < e <= |s|
    ensures s[a..e] == s[a..m] + [s[m]] + s[m + 1..e]
  {
  }

  lemma ShapeOfTail(v: string, d1: string, t: string)
    requires v == d1 + ['.'] + t && IsDigits(d1)
    requires DigitsTail(t)
    ensures Components(v).Some? && 2 <= |Components(v).value| <= 3
  {
    if IsDigits(t) {
      DottedTwo(d1, t);
    } else {
      var d2, d3 :| IsDigits(d2) && IsDigits(d3) && t == d2 + ['.'] + d3;
      assert d1 + ['.'] + (d2 + ['.'] + d3) == d1 + ['.'] + d2 + ['.'] + d3;
      DottedThree(d1, d2, d3);
    }
  }

  /** One run of digits, or two separated by ".". */
  ghost predicate DigitsTail(t: string)
  {
    IsDigits(t) || exists d2, d3 :: IsDigits(d2) && IsDigits(d3) && t == d2 + ['.'] + d3
  }

  /** The tail is one run of digits, or two separated by ".". */
  lemma TailShape(s: string, b: nat)
    requires TailAt(s, b).Some?
    ensures DigitsTail(s[b..TailAt(s, b).value])
  {
    var n2 := DigitRun(s, b);
    var t := s[b..TailAt(s, b).value];
    if s[b + n2] != ')' {
      var c := b + n2 + 1;
      var n3 := DigitRun(s, c);
      var d2, d3 := s[b..b + n2], s[c..c + n3];
      assert IsDigits(d2) && IsDigits(d3);
      assert t == d2 + ['.'] + d3;
    }
  }

  /** "D1.D2" has the two components D1 and D2. */
  lemma DottedTwo(d1: string, d2: string)
    requires IsDigits(d1) && IsDigits(d2)
    ensures Split(d1 + ['.'] + d2, '.') == [d1, d2]
    ensures Components(d1 + ['.'] + d2).Some? && |Components(d1 + ['.'] + d2).value| == 2
  {
    DigitsNoDot(d1);
    DigitsNoDot(d2);
    SplitConcat(d1, d2, '.');
    SplitNoSep(d1, '.');
    SplitNoSep(d2, '.');
    var parts := Split(d1 + ['.'] + d2, '.');
    assert parts == [d1, d2];
    assert forall i :: 0 <= i < |parts| ==> IsDigits(parts[i]);
  }

  /** "D1.D2.D3" has the three components D1, D2 and D3. */
  lemma DottedThree(d1: string, d2: string, d3: string)
    requires IsDigits(d1) && IsDigits(d2) && IsDigits(d3)
    ensures Components(d1 + ['.'] + d2 + ['.'] + d3).Some?
    ensures |Components(d1 + ['.'] + d2 + ['.'] + d3).value| == 3
  {
    DottedTwo(d1, d2);
    DigitsNoDot(d3);
    SplitConcat(d1 + ['.'] + d2, d3, '.');
    SplitNoSep(d3, '.');
    var parts := Split(d1 + ['.'] + d2 + ['.'] + d3, '.');
    assert parts == [d1, d2, d3];
    assert forall i :: 0 <= i < |parts| ==> IsDigits(parts[i]);
  }

  lemma DigitsNoDot(d: string)
    requires IsDigits(d)
    ensures '.' !in d
  {
  }

  /** A version with at most three components, compared against a scanned
      version, never runs past the padded list. */
  lemma {:induction false} FoldDefined(v: string, ms: seq<string>)
    requires Components(v).Some? && |Components(v).value| <= 3
    requires forall m :: m in ms ==> Components(m).Some? && 2 <= |Components(m).value| <= 3
    ensures Fold(v, ms, RepoPad).Some?
    ensures Fold(v, ms, RepoPad).value == v || Fold(v, ms, RepoPad).value in ms
    decreases |ms|
  {
    if ms != [] {
      assert ms[0] in ms;
      HighestDefined(v, ms[0], RepoPad);
      var h := Highest(v, ms[0], RepoPad).value;
      forall m | m in ms[1..]
        ensures m in ms
      {
      }
      FoldDefined(h, ms[1..]);
    }
  }

  /** _parseTexmacsVersion never raises; it yields "0.0.0" or one of the
      versions in the log, and "0.0.0" when the log names none. */
  lemma ChangeLogVersionFound(content: string)
    ensures ChangeLogVersion(content).Some?
    ensures ChangeLogVersion(content).value == "0.0.0" || ChangeLogVersion(content).value in FindAll(content, 0)
    ensures FindAll(content, 0) == [] ==> ChangeLogVersion(content) == Some("0.0.0")
  {
    FindAllShape(content, 0);
    var z := "0.0.0";
    assert z == "0" + ['.'] + "0" + ['.'] + "0";
    DottedThree("0", "0", "0");
    FoldDefined(z, FindAll(content, 0));
  }

  /** "(2.1.2)" is scanned as 2.1.2. */
  lemma ScanExample()
    ensures FindAll("(2.1.2)", 0) == ["2.1.2"]
  {
    var s := "(2.1.2)";
    assert DigitRun(s, 6) == 0;
    assert DigitRun(s, 5) == 1;
    assert DigitRun(s, 3) == 1;
    assert DigitRun(s, 1) == 1;
    assert s[1..6] == "2.1.2";
    assert MatchAt(s, 0) == Some(("2.1.2", 7));
  }

  /** The fold of the tagged scan yields the old version or a candidate. */
  lemma {:induction false} FoldIsCandidate(v: string, ms: seq<string>, pad: nat)
    ensures Fold(v, ms, pad).Some? ==> Fold(v, ms, pad).value == v || Fold(v, ms, pad).value in ms
    decreases |ms|
  {
    if ms != [] && Highest(v, ms[0], pad).Some? {
      var h := Highest(v, ms[0], pad).value;
      FoldIsCandidate(h, ms[1..], pad);
      if Fold(h, ms[1..], pad).Some? && Fold(h, ms[1..], pad).value in ms[1..] {
        assert Fold(h, ms[1..], pad).value in ms;
      }
    }
  }

  /** A line "<TeXmacs|V>…" with V free of ">" yields V. */
  lemma TagCandidateOf(v: string, rest: string)
    requires '>' !in v
    ensures TagCandidate(Tag + v + ">" + rest) == Some(v)
  {
    var line := Tag + v + ">" + rest;
    assert line[..|Tag|] == Tag;
    FindAt(line, Tag, 0, 0);
    var k := |Tag| + |v|;
    assert line[|Tag|..k] == v;
    assert '>' !in Tag;
    assert line[0..k] == Tag + v;
    FindChar(line, '>', 0, k);
  }

  /** With no previous version (oldversion ""), the first candidate is
      taken as it is. */
  lemma TagVersionFirst(v: string, lines: seq<string>)
    ensures Fold("", [v] + TagCandidates(lines), StaticPad) == Fold(v, TagCandidates(lines), StaticPad)
  {
    HighestUnparsable("", v, StaticPad);
    assert ([v] + TagCandidates(lines))[1..] == TagCandidates(lines);
  }
}
