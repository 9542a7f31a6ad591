/** String operations with the semantics of the Python `str` operations the
    build scripts rely on: `in`, `startswith`, `endswith`, `find`, slicing,
    `replace`, `split` on one character and `sep.join`. Strings are
    sequences of characters; no encoding is modelled. */
module Text {

  datatype Option<T> = None | Some(value: T)

  /** `sub` occurs in `s` starting at index `i`. */
  predicate OccursAt(s: string, sub: string, i: int)
  {
    0 <= i <= |s| - |sub| && s[i..i + |sub|] == sub
  }

  /** Python's `sub in s`. */
  predicate Contains(s: string, sub: string)
  {
    exists i :: 0 <= i <= |s| - |sub| && OccursAt(s, sub, i)
  }

  /** Python's `s.startswith(prefix)`. */
  predicate StartsWith(s: string, prefix: string)
  {
    |prefix| <= |s| && s[..|prefix|] == prefix
  }

  /** Python's `s.endswith(suffix)`. */
  predicate EndsWith(s: string, suffix: string)
  {
    |suffix| <= |s| && s[|s| - |suffix|..] == suffix
  }

  /** Python's `s.find(sub, start)`: the lowest index at or after `start`
      where `sub` occurs, or -1 when there is none. */
  function Find(s: string, sub: string, start: nat): (r: int)
    ensures r == -1 || (start <= r && OccursAt(s, sub, r))
    ensures forall j :: start <= j && (r == -1 || j < r) ==> !OccursAt(s, sub, j)
    ensures start == 0 ==> (r >= 0 <==> Contains(s, sub))
    decreases |s| - start
  {
    if start + |sub| > |s| then -1
    else if s[start..start + |sub|] == sub then start
    else Find(s, sub, start + 1)
  }

  /** A Python slice bound: negative bounds count from the end, and the
      result is clamped to `0..n`. */
  function SliceBound(i: int, n: nat): (k: nat)
    ensures k <= n
  {
    if i < 0 then (if i + n < 0 then 0 else i + n)
    else if i > n then n
    else i
  }

  /** Python's `s[a:b]`. */
  function PySlice(s: string, a: int, b: int): string
  {
    var lo := SliceBound(a, |s|);
    var hi := SliceBound(b, |s|);
    if lo < hi then s[lo..hi] else ""
  }

  /** Python's `s.replace(pat, rep)`: every leftmost, non-overlapping
      occurrence of `pat` is replaced, scanning left to right. */
  function Replace(s: string, pat: string, rep: string): string
    requires pat != ""
    decreases |s|
  {
    if s == "" then ""
    else if StartsWith(s, pat) then rep + Replace(s[|pat|..], pat, rep)
    else [s[0]] + Replace(s[1..], pat, rep)
  }

  /** Python's `s.split(sep)` for a one-character separator. */
  function Split(s: string, sep: char): (parts: seq<string>)
    ensures |parts| >= 1
    ensures forall i :: 0 <= i < |parts| ==> sep !in parts[i]
    decreases |s|
  {
    if s == "" then [""]
    else
      var rest := Split(s[1..], sep);
      if s[0] == sep then [""] + rest
      else [[s[0]] + rest[0]] + rest[1..]
  }

  /** Python's `sep.join(parts)` for a one-character separator. */
  function Join(parts: seq<string>, sep: char): string
  {
    if |parts| == 0 then ""
    else if |parts| == 1 then parts[0]
    else parts[0] + [sep] + Join(parts[1..], sep)
  }

  /** Every piece but the last. */
  function Init(parts: seq<string>): seq<string>
    requires |parts| >= 1
  {
    parts[..|parts| - 1]
  }

  /** The last piece: `parts[-1]`. */
  function Last(parts: seq<string>): string
    requires |parts| >= 1
  {
    parts[|parts| - 1]
  }

  /** `s.split(" ")[0]`: the text before the first space. */
  function FirstField(s: string): string
  {
    Split(s, ' ')[0]
  }

  /** `s.replace("\\", "\\\\")`: every backslash doubled. */
  function EscapeBackslashes(s: string): string
  {
    Replace(s, "\\", "\\\\")
  }

  /** The inverse of EscapeBackslashes: every doubled backslash halved. */
  function UnescapeBackslashes(s: string): string
    decreases |s|
  {
    if s == "" then ""
    else if StartsWith(s, "\\\\") then "\\" + UnescapeBackslashes(s[2..])
    else [s[0]] + UnescapeBackslashes(s[1..])
  }

  // ---------------------------------------------------------------------
  // Occurrences

  /** The last element and the front of a concatenation with a non-empty
      right part. */
  lemma SnocSplit<T>(a: seq<T>, b: seq<T>)
    requires b != []
    ensures (a + b)[..|a + b| - 1] == a + b[..|b| - 1]
    ensures (a + b)[|a + b| - 1] == b[|b| - 1]
  {
  }

  /** Within bounds a Python slice is the plain subsequence. */
  lemma PySliceIn(s: string, a: int, b: int)
    requires 0 <= a <= b <= |s|
    ensures PySlice(s, a, b) == s[a..b]
  {
  }

  /** `find` returns the first occurrence at or after `start`. */
  lemma FindAt(s: string, sub: string, start: nat, k: nat)
    requires start <= k && OccursAt(s, sub, k)
    requires forall j :: start <= j < k ==> !OccursAt(s, sub, j)
    ensures Find(s, sub, start) == k
  {
  }

  /** `find` of one character returns its first occurrence. */
  lemma FindChar(s: string, c: char, start: nat, k: nat)
    requires start <= k < |s| && s[k] == c && c !in s[start..k]
    ensures Find(s, [c], start) == k
  {
    forall j | start <= j < k
      ensures !OccursAt(s, [c], j)
    {
      assert s[j] == s[start..k][j - start];
    }
    assert s[k..k + 1] == [c];
    FindAt(s, [c], start, k);
  }

  /** An occurrence in a tail of `s` is an occurrence in `s`. */
  lemma ContainsTail(s: string, sub: string, k: nat)
    requires k <= |s| && Contains(s[k..], sub)
    ensures Contains(s, sub)
  {
    var i :| 0 <= i <= |s[k..]| - |sub| && OccursAt(s[k..], sub, i);
    assert s[k..][i..i + |sub|] == s[k + i..k + i + |sub|];
    assert OccursAt(s, sub, k + i);
  }

  /** A character absent from `s` is the first character of no occurrence. */
  lemma AbsentFirstChar(s: string, sub: string)
    requires sub != "" && sub[0] !in s
    ensures !Contains(s, sub)
  {
  }

  /** The occurrences in `a + b` that lie inside `b`. */
  lemma ContainsAppendRight(a: string, b: string, sub: string)
    requires Contains(b, sub)
    ensures Contains(a + b, sub)
  {
    assert (a + b)[|a|..] == b;
    ContainsTail(a + b, sub, |a|);
  }

  /** The occurrences in `a + b` that lie inside `a`. */
  lemma ContainsAppendLeft(a: string, b: string, sub: string)
    requires Contains(a, sub)
    ensures Contains(a + b, sub)
  {
    var i :| 0 <= i <= |a| - |sub| && OccursAt(a, sub, i);
    assert (a + b)[i..i + |sub|] == a[i..i + |sub|];
    assert OccursAt(a + b, sub, i);
  }

  // ---------------------------------------------------------------------
  // replace

  /** Replacing a pattern that does not occur changes nothing. */
  lemma {:induction false} ReplaceAbsent(s: string, pat: string, rep: string)
    requires pat != "" && !Contains(s, pat)
    ensures Replace(s, pat, rep) == s
    decreases |s|
  {
    if s != "" {
      if StartsWith(s, pat) {
        assert OccursAt(s, pat, 0);
      }
      if Contains(s[1..], pat) {
        ContainsTail(s, pat, 1);
      }
      ReplaceAbsent(s[1..], pat, rep);
    }
  }

  /** The pattern alone is replaced by the replacement alone. */
  lemma ReplaceWhole(pat: string, rep: string)
    requires pat != ""
    ensures Replace(pat, pat, rep) == rep
  {
    assert pat[|pat|..] == "";
  }

  /** Replacing one character by text that does not contain it removes it. */
  lemma {:induction false} ReplaceRemovesChar(s: string, c: char, rep: string)
    requires c !in rep
    ensures c !in Replace(s, [c], rep)
    decreases |s|
  {
    if s != "" {
      ReplaceRemovesChar(s[|[c]|..], c, rep);
      ReplaceRemovesChar(s[1..], c, rep);
    }
  }

  /** A replacement no longer than the pattern never lengthens the text. */
  lemma {:induction false} ReplaceShortens(s: string, pat: string, rep: string)
    requires pat != "" && |rep| <= |pat|
    ensures |Replace(s, pat, rep)| <= |s|
    decreases |s|
  {
    if s != "" {
      if StartsWith(s, pat) {
        ReplaceShortens(s[|pat|..], pat, rep);
      } else {
        ReplaceShortens(s[1..], pat, rep);
      }
    }
  }

  /** Replacement distributes over a split point that no occurrence of
      the pattern straddles: here, a prefix made entirely of characters
      that cannot start the pattern. */
  lemma {:induction false} ReplaceSkipsPrefix(a: string, b: string, pat: string, rep: string)
    requires pat != "" && pat[0] !in a
    ensures Replace(a + b, pat, rep) == a + Replace(b, pat, rep)
    decreases |a|
  {
    if a != "" {
      var ab := a + b;
      assert ab[0] == a[0] && a[0] in a;
      assert !StartsWith(ab, pat) by {
        assert |pat| > 0;
        assert |pat| <= |ab| ==> ab[..|pat|][0] == a[0];
      }
      assert ab[1..] == a[1..] + b;
      ReplaceSkipsPrefix(a[1..], b, pat, rep);
      calc {
        Replace(ab, pat, rep);
        [ab[0]] + Replace(ab[1..], pat, rep);
        [a[0]] + (a[1..] + Replace(b, pat, rep));
        { assert [a[0]] + a[1..] == a; }
        a + Replace(b, pat, rep);
      }
    } else {
      assert a + b == b;
    }
  }

  /** Replacement of a pattern found at the front. */
  lemma ReplaceFront(pat: string, b: string, rep: string)
    requires pat != ""
    ensures Replace(pat + b, pat, rep) == rep + Replace(b, pat, rep)
  {
    assert StartsWith(pat + b, pat);
    assert (pat + b)[|pat|..] == b;
  }

  // ---------------------------------------------------------------------
  // split and join

  /** Text without the separator splits into itself alone. */
  lemma {:induction false} SplitNoSep(s: string, sep: char)
    requires sep !in s
    ensures Split(s, sep) == [s]
    decreases |s|
  {
    if s != "" {
      assert s[0] in s;
      SplitNoSep(s[1..], sep);
      assert [s[0]] + s[1..] == s;
    }
  }

  /** Splitting at one occurrence of the separator splits each side. */
  lemma {:induction false} SplitConcat(x: string, y: string, sep: char)
    ensures Split(x + [sep] + y, sep) == Split(x, sep) + Split(y, sep)
    decreases |x|
  {
    if x == "" {
      assert x + [sep] + y == [sep] + y;
      assert ([sep] + y)[1..] == y;
    } else {
      assert (x + [sep] + y)[0] == x[0];
      assert (x + [sep] + y)[1..] == x[1..] + [sep] + y;
      SplitConcat(x[1..], y, sep);
    }
  }

  /** Joining the pieces of a split gives back the text. */
  lemma {:induction false} JoinSplit(s: string, sep: char)
    ensures Join(Split(s, sep), sep) == s
    decreases |s|
  {
    if s != "" {
      JoinSplit(s[1..], sep);
      var rest := Split(s[1..], sep);
      if s[0] == sep {
        assert Join([""] + rest, sep) == "" + [sep] + Join(rest, sep);
      } else if |rest| >= 2 {
        var parts := [[s[0]] + rest[0]] + rest[1..];
        assert parts[1..] == rest[1..];
        assert Join(rest, sep) == rest[0] + [sep] + Join(rest[1..], sep);
      }
    }
  }

  /** Splitting a join of separator-free pieces gives back the pieces. */
  lemma {:induction false} SplitJoin(parts: seq<string>, sep: char)
    requires |parts| >= 1
    requires forall i :: 0 <= i < |parts| ==> sep !in parts[i]
    ensures Split(Join(parts, sep), sep) == parts
    decreases |parts|
  {
    SplitNoSep(parts[0], sep);
    if |parts| >= 2 {
      SplitJoin(parts[1..], sep);
      SplitConcat(parts[0], Join(parts[1..], sep), sep);
      assert [parts[0]] + parts[1..] == parts;
    }
  }

  /** Joining after appending one more piece. */
  lemma {:induction false} JoinSnoc(parts: seq<string>, last: string, sep: char)
    requires |parts| >= 1
    ensures Join(parts + [last], sep) == Join(parts, sep) + [sep] + last
    decreases |parts|
  {
    if |parts| == 1 {
      assert (parts + [last])[1..] == [last];
    } else {
      assert (parts + [last])[1..] == parts[1..] + [last];
      JoinSnoc(parts[1..], last, sep);
    }
  }

  // ---------------------------------------------------------------------
  // backslash escaping

  /** Halving the doubled backslashes undoes the doubling, so two commands
      escape to the same text only if they are the same command. */
  lemma {:induction false} UnescapeEscape(s: string)
    ensures UnescapeBackslashes(EscapeBackslashes(s)) == s
    decreases |s|
  {
    if s != "" {
      UnescapeEscape(s[1..]);
      if s[0] == '\\' {
        assert StartsWith(s, "\\");
        assert s[|"\\"|..] == s[1..];
        var e := "\\\\" + EscapeBackslashes(s[1..]);
        assert StartsWith(e, "\\\\");
        assert e[2..] == EscapeBackslashes(s[1..]);
      } else {
        assert !StartsWith(s, "\\");
        var e := [s[0]] + EscapeBackslashes(s[1..]);
        assert e[0] == s[0];
        assert |e| >= 2 ==> e[..2][0] == e[0];
        assert !StartsWith(e, "\\\\");
        assert e[1..] == EscapeBackslashes(s[1..]);
      }
    }
  }

  /** Escaping adds exactly one character per backslash. */
  lemma {:induction false} EscapeLength(s: string)
    ensures |EscapeBackslashes(s)| == |s| + multiset(s)['\\']
    decreases |s|
  {
    if s != "" {
      EscapeLength(s[1..]);
      assert s == [s[0]] + s[1..];
      assert multiset(s) == multiset([s[0]]) + multiset(s[1..]);
      if s[0] == '\\' {
        assert s[|"\\"|..] == s[1..];
      }
    }
  }

  /** The first field of a line "field<space>rest" is the field. */
  lemma FirstFieldOf(field: string, rest: string)
    requires ' ' !in field
    ensures FirstField(field + " " + rest) == field
  {
    SplitConcat(field, rest, ' ');
    assert field + " " + rest == field + [' '] + rest;
    SplitNoSep(field, ' ');
  }
}
