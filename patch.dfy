/** The patch selection of autobuild/__main__.py (create_patch) and the
    `tmrepo` placeholder of TexmacsMachineMac. create_patch walks a copy of
    a remote tree and copies into the patch directory each file that is
    new or changed, not excluded by its path, and relevant to the Android
    or Qt port; it returns the number of files copied. The walk, the local
    files' contents and what diff prints are oracles, one entry per file
    in walk order. */
module Patch {
  import opened Text

  /** `root.replace("tmp", "")` with one leading "/" removed. */
  function RootPurged(root: string): string
  {
    var r := Replace(root, "tmp", "");
    if StartsWith(r, "/") then r[1..] else r
  }

  /** The path exclusions: hidden directories and files, backups, the
      configure script, logs, ice-9 and the TeXmacs tree outside progs. */
  predicate Skipped(rootPurged: string, file: string)
  {
    || Contains(rootPurged, "/.") || StartsWith(file, ".")
    || Contains(file, "~") || Contains(rootPurged, "~")
    || file == "configure"
    || EndsWith(file, ".log")
    || Contains(rootPurged, "ice-9")
    || (Contains(rootPurged, "TeXmacs") && !Contains(rootPurged, "TeXmacs/progs"))
  }

  predicate IsAlnum(c: char)
  {
    ('0' <= c <= '9') || ('a' <= c <= 'z') || ('A' <= c <= 'Z')
  }

  function Lower(c: char): char
  {
    if 'A' <= c <= 'Z' then (c as int - 'A' as int + 'a' as int) as char else c
  }

  /** What one character contributes to the normalised text. */
  function Keep(c: char): string
  {
    if IsAlnum(c) then [Lower(c)] else ""
  }

  /** `''.join(e.lower() for e in s if e.isalnum())`, on ASCII. */
  function Normalize(s: string): string
    decreases |s|
  {
    if s == "" then "" else Keep(s[0]) + Normalize(s[1..])
  }

  /** The file name marks the file as part of the Android or Qt port. */
  predicate NameRelevant(file: string)
  {
    Contains(file, "android") || Contains(file, "Android") || Contains(file, "ANDROID")
    || Contains(file, "java") || Contains(file, "JNI") || Contains(file, "qt") || Contains(file, "Qt")
  }

  /** The relevance test: the name, or normalised content naming both
      "android" and "qt". */
  predicate Relevant(file: string, remoteNormalized: string)
  {
    NameRelevant(file) || (Contains(remoteNormalized, "android") && Contains(remoteNormalized, "qt"))
  }

  /** One file of the walk: its directory, its name, the content of the
      local file of the same path (None when there is none), its remote
      content and what diff prints for the pair. */
  datatype Entry = Entry(root: string, file: string, local: Option<string>, remote: string, diff: string)

  /** The file is copied into the patch. */
  predicate Copies(e: Entry)
  {
    var rp := RootPurged(e.root);
    if Skipped(rp, e.file) then false
    else if e.local.None? then Relevant(e.file, Normalize(e.remote))
    else if Normalize(e.local.value) == Normalize(e.remote) then false
    else if !Relevant(e.file, Normalize(e.remote)) then false
    else e.diff != ""
  }

  /** The path the file is copied to. */
  function PatchedFile(patchDir: string, e: Entry): string
  {
    patchDir + "/" + RootPurged(e.root) + "/" + e.file
  }

  /** What one file adds to the patch. */
  function Pick(patchDir: string, e: Entry): seq<string>
  {
    if Copies(e) then [PatchedFile(patchDir, e)] else []
  }

  /** The paths copied, in walk order. */
  function Copied(patchDir: string, entries: seq<Entry>): seq<string>
  {
    if entries == [] then []
    else Copied(patchDir, entries[..|entries| - 1]) + Pick(patchDir, entries[|entries| - 1])
  }

  /** create_patch: the walk with its change counter. */
  method CreatePatch(patchDir: string, entries: seq<Entry>) returns (numChanges: nat, copied: seq<string>)
    ensures copied == Copied(patchDir, entries)
    ensures numChanges == |copied|
  {
    numChanges, copied := 0, [];
    var i := 0;
    while i < |entries|
      invariant 0 <= i <= |entries|
      invariant copied == Copied(patchDir, entries[..i])
      invariant numChanges == |copied|
    {
      assert entries[..i + 1][..i] == entries[..i];
      copied, numChanges := Visit(patchDir, entries[i], copied, numChanges);
      i := i + 1;
    }
    assert entries[..i] == entries;
  }

  /** One pass of the loop body: the file is tested and, when it passes,
      copied and counted. */
  method Visit(patchDir: string, e: Entry, copied: seq<string>, numChanges: nat)
    returns (copied': seq<string>, numChanges': nat)
    requires numChanges == |copied|
    ensures copied' == copied + Pick(patchDir, e) && numChanges' == |copied'|
  {
    copied', numChanges' := copied, numChanges;
    var copy := Consider(e);
    if copy {
      copied' := copied' + [PatchedFile(patchDir, e)];
      numChanges' := numChanges' + 1;
    }
  }

  /** The tests of the loop body for one file, in the source's order. */
  method Consider(e: Entry) returns (copy: bool)
    ensures copy == Copies(e)
  {
    var rootPurged := Replace(e.root, "tmp", "");
    if StartsWith(rootPurged, "/") {
      rootPurged := rootPurged[1..];
    }
    var file := e.file;
    if Contains(rootPurged, "/.") || StartsWith(file, ".") {
      return false;
    }
    if Contains(file, "~") || Contains(rootPurged, "~") {
      return false;
    }
    if file == "configure" {
      return false;
    }
    if EndsWith(file, ".log") {
      return false;
    }
    if Contains(rootPurged, "ice-9") {
      return false;
    }
    if Contains(rootPurged, "TeXmacs") && !Contains(rootPurged, "TeXmacs/progs") {
      return false;
    }
    var remoteContent := Normalize(e.remote);
    if e.local.None? {
      return Relevant(file, remoteContent);
    }
    var localContent := Normalize(e.local.value);
    if localContent == remoteContent {
      return false;
    }
    if !Relevant(file, remoteContent) {
      return false;
    }
    return e.diff != "";
  }

  /** `tmrepo.replace("*username*", username)`. */
  function TmRepo(tmrepo: string, username: string): string
  {
    Replace(tmrepo, "*username*", username)
  }

  // ---------------------------------------------------------------------
  // Properties

  /** Copying only what passes every test: an excluded path, content
      equal after normalisation, an irrelevant file or an existing file
      with an empty diff is never copied; a relevant new file that passes
      the path tests is copied whatever diff would print. */
  lemma CopiesIff(e: Entry)
    ensures Copies(e) <==>
      && !Skipped(RootPurged(e.root), e.file)
      && Relevant(e.file, Normalize(e.remote))
      && (e.local.Some? ==> Normalize(e.local.value) != Normalize(e.remote) && e.diff != "")
  {
  }

  /** One file adds at most one path, and one exactly when it is copied. */
  lemma PickLength(patchDir: string, e: Entry)
    ensures |Pick(patchDir, e)| == if Copies(e) then 1 else 0
  {
  }

  /** The patch holds at most one path per file. */
  lemma {:induction false} CopiedBound(patchDir: string, entries: seq<Entry>)
    ensures |Copied(patchDir, entries)| <= |entries|
    decreases |entries|
  {
    if entries != [] {
      var n := |entries| - 1;
      CopiedBound(patchDir, entries[..n]);
      PickLength(patchDir, entries[n]);
    }
  }

  /** When no file passes the tests the patch is empty. */
  lemma {:induction false} CopiedNone(patchDir: string, entries: seq<Entry>)
    requires forall i :: 0 <= i < |entries| ==> !Copies(entries[i])
    ensures Copied(patchDir, entries) == []
    decreases |entries|
  {
    if entries != [] {
      var n := |entries| - 1;
      var init := entries[..n];
      forall i | 0 <= i < n
        ensures !Copies(init[i])
      {
        assert init[i] == entries[i];
      }
      CopiedNone(patchDir, init);
      assert !Copies(entries[n]);
    }
  }

  /** The patch of a walk is the patch of its parts. */
  lemma {:induction false} CopiedAppend(patchDir: string, a: seq<Entry>, b: seq<Entry>)
    ensures Copied(patchDir, a + b) == Copied(patchDir, a) + Copied(patchDir, b)
    decreases |b|
  {
    if b == [] {
      assert a + b == a;
    } else {
      var n := |b| - 1;
      assert (a + b)[..|a + b| - 1] == a + b[..n] && (a + b)[|a + b| - 1] == b[n];
      CopiedAppend(patchDir, a, b[..n]);
      var p, q, r := Copied(patchDir, a), Copied(patchDir, b[..n]), Pick(patchDir, b[n]);
      assert (p + q) + r == p + (q + r);
    }
  }

  /** Normalised text holds only lower-case letters and digits. */
  lemma {:induction false} NormalizeChars(s: string)
    ensures forall i :: 0 <= i < |Normalize(s)| ==> IsAlnum(Normalize(s)[i]) && !('A' <= Normalize(s)[i] <= 'Z')
    ensures |Normalize(s)| <= |s|
    decreases |s|
  {
    if s != "" {
      NormalizeChars(s[1..]);
    }
  }

  /** Normalising twice is normalising once. */
  lemma {:induction false} NormalizeIdempotent(s: string)
    ensures Normalize(Normalize(s)) == Normalize(s)
    decreases |s|
  {
    if s != "" {
      NormalizeIdempotent(s[1..]);
      var head := Keep(s[0]);
      NormalizeAppend(head, Normalize(s[1..]));
      if IsAlnum(s[0]) {
        assert Normalize(head) == head by {
          assert head[1..] == "";
        }
      }
    }
  }

  lemma {:induction false} NormalizeAppend(a: string, b: string)
    ensures Normalize(a + b) == Normalize(a) + Normalize(b)
    decreases |a|
  {
    if a == "" {
      assert a + b == b;
    } else {
      var h := Keep(a[0]);
      assert (a + b)[0] == a[0] && (a + b)[1..] == a[1..] + b;
      assert Normalize(a + b) == h + Normalize(a[1..] + b);
      NormalizeAppend(a[1..], b);
      assert h + (Normalize(a[1..]) + Normalize(b)) == (h + Normalize(a[1..])) + Normalize(b);
    }
  }

  lemma NormalizeOne(c: char)
    ensures Normalize([c]) == Keep(c)
  {
    assert [c][1..] == "";
    assert Keep(c) + "" == Keep(c);
  }

  /** Spaces and punctuation do not matter: inserting a character that is
      not a letter or digit leaves the normalised text alone. */
  lemma NormalizeIgnores(a: string, c: char, b: string)
    requires !IsAlnum(c)
    ensures Normalize(a + [c] + b) == Normalize(a + b)
  {
    NormalizeAppend(a + [c], b);
    NormalizeAppend(a, [c]);
    NormalizeOne(c);
    NormalizeAppend(a, b);
    var na := Normalize(a);
    assert na + "" == na;
  }

  /** Case does not matter: an upper-case letter normalises like its
      lower-case one. */
  lemma NormalizeCase(a: string, c: char, b: string)
    requires 'a' <= c <= 'z'
    ensures Normalize(a + [(c as int - 32) as char] + b) == Normalize(a + [c] + b)
  {
    var u := (c as int - 32) as char;
    NormalizeAppend(a + [u], b);
    NormalizeAppend(a, [u]);
    NormalizeAppend(a + [c], b);
    NormalizeAppend(a, [c]);
    NormalizeOne(u);
    NormalizeOne(c);
    assert Keep(u) == Keep(c);
  }

  /** The walk's top directory and its direct subdirectories purge to the
      path below it. */
  lemma RootPurgedTop(rest: string)
    requires !Contains(rest, "tmp")
    ensures RootPurged("tmp") == ""
    ensures RootPurged("tmp/" + rest) == rest
  {
    ReplaceWhole("tmp", "");
    assert "tmp/" + rest == "tmp" + ("/" + rest);
    ReplaceFront("tmp", "/" + rest, "");
    ReplaceSkipsPrefix("/", rest, "tmp", "");
    ReplaceAbsent(rest, "tmp", "");
    var r := Replace("tmp/" + rest, "tmp", "");
    assert r == "/" + rest;
    assert StartsWith(r, "/") && r[1..] == rest;
  }

  /** Every "tmp" goes, not only the leading one: a directory "atmp" under
      the walk's top purges to "a". */
  lemma RootPurgedInner()
    ensures RootPurged("tmp/atmp") == "a"
  {
    assert "tmp/atmp" == "tmp" + ("/a" + "tmp");
    ReplaceFront("tmp", "/a" + "tmp", "");
    ReplaceSkipsPrefix("/a", "tmp", "tmp", "");
    ReplaceWhole("tmp", "");
    assert "/a" + "" == "/a";
  }

  /** The placeholder is replaced by the user name, whatever the name
      holds, and the rest of the path is kept; the default macOS SDK path
      "/Users/*username*/DEV/SDK" is of this shape. */
  lemma TmRepoPlaceholder(pre: string, post: string, username: string)
    requires '*' !in pre && '*' !in post
    ensures TmRepo(pre + "*username*" + post, username) == pre + username + post
  {
    assert pre + "*username*" + post == pre + ("*username*" + post);
    ReplaceSkipsPrefix(pre, "*username*" + post, "*username*", username);
    ReplaceFront("*username*", post, username);
    AbsentFirstChar(post, "*username*");
    ReplaceAbsent(post, "*username*", username);
  }

  /** A path without the placeholder is kept. */
  lemma TmRepoPlain(tmrepo: string, username: string)
    requires '*' !in tmrepo
    ensures TmRepo(tmrepo, username) == tmrepo
  {
    AbsentFirstChar(tmrepo, "*username*");
    ReplaceAbsent(tmrepo, "*username*", username);
  }
}
