/** The Subversion working copy of autobuild/svn.py (and its twin in
    autobuild/tmstatic.py): `svn up` output is scanned for the revision
    it reports, and the working copy remembers the last revision seen and
    whether the last update moved it. The output of `svn up` is an oracle
    given to Up. */
module Svn {
  import opened Text

  const AtRevision: string := "At revision"

  /** The revision `svn up` reports: the text from 12 characters after the
      first "At revision" (the phrase and one space) up to the first "."
      at or after the phrase; None when the phrase is absent. */
  function Revision(output: string): (r: Option<string>)
    ensures r.Some? <==> Contains(output, AtRevision)
  {
    var index := Find(output, AtRevision, 0);
    if index < 0 then None
    else
      var index2 := Find(output, ".", index);
      Some(PySlice(output, index + 12, index2))
  }

  /** The revision and the updated flag after one `svn up` that printed
      `output`, from revision `revision`. */
  function UpState(revision: string, output: string): (string, bool)
  {
    match Revision(output)
    case None => (revision, false)
    case Some(r) => if r != revision then (r, revision != "") else (revision, false)
  }

  class Repository {
    const url: string
    const dst: string
    var hasBeenUpdated: bool
    var revision: string

    constructor (url: string, dst: string)
      ensures this.url == url && this.dst == dst
      ensures !hasBeenUpdated && revision == ""
    {
      this.url := url;
      this.dst := dst;
      hasBeenUpdated := false;
      revision := "";
    }

    /** up(): run `svn up` (it printed `output`) and record what it says. */
    method Up(output: string)
      modifies this`hasBeenUpdated, this`revision
      ensures (revision, hasBeenUpdated) == UpState(old(revision), output)
      ensures !Contains(output, AtRevision) ==> !hasBeenUpdated && revision == old(revision)
    {
      if Find(output, AtRevision, 0) >= 0 {
        var index := Find(output, AtRevision, 0);
        var index2 := Find(output, ".", index);
        var newRevision := PySlice(output, index + 12, index2);
        if newRevision != revision {
          hasBeenUpdated := revision != "";
          revision := newRevision;
        } else {
          hasBeenUpdated := false;
        }
      } else {
        hasBeenUpdated := false;
      }
    }

    /** duplicate(dst): a working copy of the same repository at `dst`
        that keeps the updated flag but has seen no revision yet. */
    method Duplicate(dst: string) returns (copy: Repository)
      ensures fresh(copy)
      ensures copy.url == url && copy.dst == dst
      ensures copy.hasBeenUpdated == hasBeenUpdated && copy.revision == ""
    {
      copy := new Repository(url, dst);
      copy.hasBeenUpdated := hasBeenUpdated;
    }
  }

  // ---------------------------------------------------------------------
  // Properties

  /** The update flag is raised exactly when a revision was already known
      and `svn up` reports a different one; the revision changes only then
      or on the first observation. */
  lemma UpdatedIff(revision: string, output: string)
    ensures UpState(revision, output).1 <==>
      Revision(output).Some? && revision != "" && Revision(output).value != revision
    ensures UpState(revision, output).0 != revision ==>
      Revision(output).Some? && UpState(revision, output).0 == Revision(output).value
  {
  }

  /** The first revision ever seen is never an update. */
  lemma FirstObservationNoUpdate(output: string)
    ensures !UpState("", output).1
    ensures Revision(output).Some? ==> UpState("", output).0 == Revision(output).value
  {
  }

  /** Seeing the same output twice: the second `svn up` reports no update
      and keeps the revision. */
  lemma UpAgainNoUpdate(revision: string, output: string)
    ensures UpState(UpState(revision, output).0, output) == (UpState(revision, output).0, false)
  {
  }

  /** "… At revision N. …" reports N, when nothing before the phrase
      starts with "A" and N holds no ".". */
  lemma RevisionOf(pre: string, n: string, post: string)
    requires 'A' !in pre && '.' !in n
    ensures Revision(pre + "At revision " + n + "." + post) == Some(n)
  {
    var output := pre + "At revision " + n + "." + post;
    var p, dot := |pre|, |pre| + 12 + |n|;
    PhraseAt(pre, n, post);
    DotAt(pre, n, post);
    NumberAt(pre, n, post);
    RevisionAt(output, p, dot, n);
  }

  lemma NumberAt(pre: string, n: string, post: string)
    ensures (pre + "At revision " + n + "." + post)[|pre| + 12..|pre| + 12 + |n|] == n
  {
    var output := pre + "At revision " + n + "." + post;
    assert output == (pre + "At revision ") + n + ("." + post);
  }

  /** The revision lies between the phrase with its space and the dot. */
  lemma RevisionAt(output: string, p: nat, dot: nat, n: string)
    requires p + 12 <= dot <= |output| && output[p + 12..dot] == n
    requires Find(output, AtRevision, 0) == p && Find(output, ".", p) == dot
    ensures Revision(output) == Some(n)
  {
    PySliceIn(output, p + 12, dot);
  }

  /** The phrase is found right after a prefix holding no "A". */
  lemma PhraseAt(pre: string, n: string, post: string)
    requires 'A' !in pre
    ensures Find(pre + "At revision " + n + "." + post, AtRevision, 0) == |pre|
  {
    var output := pre + "At revision " + n + "." + post;
    var p := |pre|;
    assert output[p..p + |AtRevision|] == AtRevision;
    forall j | 0 <= j < p
      ensures !OccursAt(output, AtRevision, j)
    {
      assert output[j] == pre[j];
    }
    FindAt(output, AtRevision, 0, p);
  }

  /** The first "." after the phrase ends the revision. */
  lemma DotAt(pre: string, n: string, post: string)
    requires '.' !in n
    ensures Find(pre + "At revision " + n + "." + post, ".", |pre|) == |pre| + 12 + |n|
  {
    var output := pre + "At revision " + n + "." + post;
    var p, dot := |pre|, |pre| + 12 + |n|;
    assert output[dot] == '.';
    forall k | p <= k < dot
      ensures output[k] != '.'
    {
      if k < p + 12 {
        assert output[k] == "At revision "[k - p];
      } else {
        assert output[k] == n[k - p - 12];
      }
    }
    FindChar(output, '.', p, dot);
  }
}
