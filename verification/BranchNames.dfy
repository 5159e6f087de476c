/** Composing and re-slugging branch names (`src/shared/branch-name.ts`) and the two shapes
    a base ref is stored in (`src/shared/branch-ref.ts`). */
module BranchNames {
  import opened Common

  // ------------------------------------------------------------ branch-name.ts

  /** The prefix without its trailing slashes. */
  function Normalized(prefix: string): (r: string)
    ensures |r| <= |prefix| && r == prefix[..|r|]
    ensures r == "" || r[|r| - 1] != '/'
    ensures forall k :: |r| <= k < |prefix| ==> prefix[k] == '/'
  {
    if prefix == "" || prefix[|prefix| - 1] != '/' then prefix else Normalized(prefix[..|prefix| - 1])
  }

  function JoinBranchName(prefix: string, slug: string): string {
    var normalized := Normalized(prefix);
    if normalized != "" then normalized + "/" + slug else slug
  }

  function LastSlash(s: string): (i: int)
    ensures -1 <= i < |s|
    ensures i >= 0 ==> s[i] == '/'
    ensures forall k :: i < k < |s| ==> s[k] != '/'
  {
    if s == "" then -1
    else if s[|s| - 1] == '/' then |s| - 1
    else LastSlash(s[..|s| - 1])
  }

  function KeptPrefix(branch: string): string {
    if LastSlash(branch) > 0 then branch[..LastSlash(branch)] else ""
  }

  function ComposeRenamedBranch(currentBranch: string, slug: string): string {
    JoinBranchName(KeptPrefix(currentBranch), slug)
  }

  /** The slug brings no prefix of its own: nothing but slashes stands before its last one. */
  predicate PlainSlug(slug: string) {
    forall k :: 0 <= k < LastSlash(slug) ==> slug[k] == '/'
  }

  lemma NormalizedUnique(prefix: string, n: nat)
    requires n <= |prefix|
    requires n > 0 ==> prefix[n - 1] != '/'
    requires forall k :: n <= k < |prefix| ==> prefix[k] == '/'
    ensures Normalized(prefix) == prefix[..n]
  {
    var r := |Normalized(prefix)|;
    assert r > 0 ==> Normalized(prefix)[r - 1] == prefix[r - 1];
  }

  lemma LastSlashUnique(s: string, i: int)
    requires -1 <= i < |s|
    requires i >= 0 ==> s[i] == '/'
    requires forall k :: i < k < |s| ==> s[k] != '/'
    ensures LastSlash(s) == i
  {
  }

  /** Where the last slash of a composed name stands. */
  lemma LastSlashOfJoin(normalized: string, slug: string)
    requires normalized != "" && normalized[|normalized| - 1] != '/'
    ensures LastSlash(normalized + "/" + slug) == |normalized| + 1 + LastSlash(slug)
  {
    var name := normalized + "/" + slug;
    var i := |normalized| + 1 + LastSlash(slug);
    assert forall k :: |normalized| < k < |name| ==> name[k] == slug[k - |normalized| - 1];
    LastSlashUnique(name, i);
  }

  /** What the rename keeps of a name composed from a prefix that is not all slashes. */
  lemma KeptPrefixOfJoin(normalized: string, slug: string)
    requires normalized != "" && normalized[|normalized| - 1] != '/'
    ensures Normalized(KeptPrefix(normalized + "/" + slug)) == normalized <==> PlainSlug(slug)
  {
    LastSlashOfJoin(normalized, slug);
    var name, last := normalized + "/" + slug, LastSlash(slug);
    var kept := KeptPrefix(name);
    assert forall k :: |normalized| < k < |kept| ==> kept[k] == slug[k - |normalized| - 1];
    if PlainSlug(slug) {
      NormalizedUnique(kept, |normalized|);
    } else if Normalized(kept) == normalized {
      forall k | 0 <= k < last ensures slug[k] == '/' {
        assert kept[k + |normalized| + 1] == '/';
      }
      assert false;
    }
  }

  lemma KeptPrefixOfSlug(slug: string)
    ensures Normalized(KeptPrefix(slug)) == "" <==> PlainSlug(slug)
  {
    var kept := KeptPrefix(slug);
    if PlainSlug(slug) {
      NormalizedUnique(kept, 0);
    } else {
      var k :| 0 <= k < LastSlash(slug) && slug[k] != '/';
      assert kept[k] != '/';
    }
  }

  lemma JoinInjective(p: string, q: string, slug: string)
    ensures JoinBranchName(p, slug) == JoinBranchName(q, slug) <==> Normalized(p) == Normalized(q)
  {
    var np, nq := Normalized(p), Normalized(q);
    if JoinBranchName(p, slug) == JoinBranchName(q, slug) {
      assert |np| == |nq|;
      assert np == JoinBranchName(p, slug)[..|np|];
      assert nq == JoinBranchName(q, slug)[..|nq|];
    }
  }

  /** Renaming a composed branch is composing it afresh, under any prefix, exactly when the
      slug it carried brought no prefix of its own. */
  lemma RenameExactly(prefix: string, slug: string, renamed: string)
    ensures ComposeRenamedBranch(JoinBranchName(prefix, slug), renamed) == JoinBranchName(prefix, renamed)
       <==> PlainSlug(slug)
  {
    var name := JoinBranchName(prefix, slug);
    JoinInjective(KeptPrefix(name), prefix, renamed);
    var normalized := Normalized(prefix);
    if normalized != "" {
      KeptPrefixOfJoin(normalized, slug);
    } else {
      KeptPrefixOfSlug(slug);
    }
  }

  /** Of two renames in a row only the second shows, exactly when the first slug was plain. */
  lemma SecondRenameWins(branch: string, slug: string, renamed: string)
    ensures ComposeRenamedBranch(ComposeRenamedBranch(branch, slug), renamed) == ComposeRenamedBranch(branch, renamed)
       <==> PlainSlug(slug)
  {
    RenameExactly(KeptPrefix(branch), slug, renamed);
  }

  // ------------------------------------------------------------- branch-ref.ts

  /** White space and line terminators, as `String.prototype.trim` takes them. */
  predicate IsSpace(c: char) {
    '\U{9}' <= c <= '\U{D}' || c == ' ' || c == '\U{A0}' || c == '\U{1680}' || '\U{2000}' <= c <= '\U{200A}'
    || c == '\U{2028}' || c == '\U{2029}' || c == '\U{202F}' || c == '\U{205F}' || c == '\U{3000}' || c == '\U{FEFF}'
  }

  function TrimStart(s: string): (r: string)
    ensures |r| <= |s| && r == s[|s| - |r|..]
    ensures r != "" ==> !IsSpace(r[0])
  {
    if s != "" && IsSpace(s[0]) then TrimStart(s[1..]) else s
  }

  function TrimEnd(s: string): (r: string)
    ensures |r| <= |s| && r == s[..|r|]
    ensures r != "" ==> !IsSpace(r[|r| - 1])
  {
    if s != "" && IsSpace(s[|s| - 1]) then TrimEnd(s[..|s| - 1]) else s
  }

  function Trim(s: string): string { TrimEnd(TrimStart(s)) }

  predicate StartsWith(s: string, prefix: string) { |prefix| <= |s| && s[..|prefix|] == prefix }

  const REMOTE_PATH := "refs/remotes/origin/"
  const REMOTE := "origin/"

  /** `replace(/^(?:refs\/remotes\/)?origin\//, '')`: one qualifier, anchored at the start. */
  function Unqualified(s: string): (r: string)
    ensures |r| <= |s| && r == s[|s| - |r|..]
  {
    if StartsWith(s, REMOTE_PATH) then s[|REMOTE_PATH|..]
    else if StartsWith(s, REMOTE) then s[|REMOTE|..]
    else s
  }

  function BareBranchName(r: Option<string>): Option<string> {
    if r == None || Trim(r.value) == "" then None
    else
      var bare := Unqualified(Trim(r.value));
      if bare == "" then None else Some(bare)
  }

  function OriginQualifiedRef(name: Option<string>): Option<string> {
    var bare := BareBranchName(name);
    if bare == None then None else Some(REMOTE + bare.value)
  }

  lemma TrimIdle(s: string)
    requires s != "" ==> !IsSpace(s[0]) && !IsSpace(s[|s| - 1])
    ensures Trim(s) == s
  {
  }

  lemma TrimmedEnds(s: string)
    ensures Trim(s) != "" ==> !IsSpace(Trim(s)[0]) && !IsSpace(Trim(s)[|Trim(s)| - 1])
  {
    var start := TrimStart(s);
    if TrimEnd(start) != "" {
      assert TrimEnd(start)[0] == start[0];
    }
  }

  lemma BareEndsInInk(r: Option<string>)
    ensures BareBranchName(r).Some? ==>
              var bare := BareBranchName(r).value;
              bare != "" && !IsSpace(bare[|bare| - 1])
  {
    if BareBranchName(r).Some? {
      var trimmed := Trim(r.value);
      TrimmedEnds(r.value);
      var bare := Unqualified(trimmed);
      assert bare[|bare| - 1] == trimmed[|trimmed| - 1];
    }
  }

  lemma UnqualifiedOfQualified(bare: string)
    ensures Unqualified(REMOTE + bare) == bare
  {
    var s := REMOTE + bare;
    assert s[0] == 'o' && REMOTE_PATH[0] == 'r';
    assert |REMOTE_PATH| <= |s| ==> s[..|REMOTE_PATH|][0] == s[0];
    assert s[..|REMOTE|] == REMOTE && s[|REMOTE|..] == bare;
  }

  lemma BareOfQualified(bare: string)
    requires bare != "" && !IsSpace(bare[|bare| - 1])
    ensures BareBranchName(Some(REMOTE + bare)) == Some(bare)
  {
    TrimQualified(REMOTE + bare, bare);
    UnqualifiedOfQualified(bare);
    BareOfTrimmed(REMOTE + bare, bare);
  }

  lemma TrimQualified(s: string, bare: string)
    requires bare != "" && !IsSpace(bare[|bare| - 1])
    requires s == REMOTE + bare
    ensures s != "" && Trim(s) == s
  {
    assert s[0] == 'o';
    TrimIdle(s);
  }

  lemma BareOfTrimmed(s: string, bare: string)
    requires s != "" && Trim(s) == s && Unqualified(s) == bare && bare != ""
    ensures BareBranchName(Some(s)) == Some(bare)
  {
  }

  /** Qualifying settles a ref of either shape: qualifying again changes nothing, and the
      plain name can be read back off it. */
  lemma QualifiedIsStable(r: Option<string>)
    ensures BareBranchName(OriginQualifiedRef(r)) == BareBranchName(r)
    ensures OriginQualifiedRef(OriginQualifiedRef(r)) == OriginQualifiedRef(r)
  {
    if BareBranchName(r).Some? {
      BareEndsInInk(r);
      BareOfQualified(BareBranchName(r).value);
    }
  }

  /** What a ref holds behind a qualifier is a plain name already: nothing, or a text that
      starts with neither white space nor a qualifier. */
  predicate PlainBehind(s: string, qualifier: string) {
    StartsWith(s, qualifier) ==>
      var rest := s[|qualifier|..];
      rest == "" || (!IsSpace(rest[0]) && !StartsWith(rest, REMOTE_PATH) && !StartsWith(rest, REMOTE))
  }

  /** Taking the plain name is not stable in the same way: taking it twice agrees with
      taking it once exactly when the trimmed ref is plain behind its qualifier, if any. */
  lemma BareTwiceExactly(r: Option<string>)
    ensures BareBranchName(BareBranchName(r)) == BareBranchName(r)
       <==> (r.Some? ==> PlainBehind(Trim(r.value), REMOTE_PATH) && PlainBehind(Trim(r.value), REMOTE))
  {
    if r.Some? {
      var t := Trim(r.value);
      TrimmedEnds(r.value);
      OneQualifier(t);
      if BareBranchName(r).Some? {
        var bare := BareBranchName(r).value;
        BareEndsInInk(r);
        BareUnchanged(bare);
        UnqualifiedKeeps(bare);
        PlainWhenKept(t, bare);
      } else {
        NothingBehind(t);
      }
    }
  }

  lemma OneQualifier(s: string)
    ensures !(StartsWith(s, REMOTE_PATH) && StartsWith(s, REMOTE))
  {
    assert REMOTE_PATH[0] == 'r' && REMOTE[0] == 'o';
    assert StartsWith(s, REMOTE_PATH) ==> s[..|REMOTE_PATH|][0] == s[0];
    assert StartsWith(s, REMOTE) ==> s[..|REMOTE|][0] == s[0];
  }

  lemma UnqualifiedKeeps(s: string)
    ensures Unqualified(s) == s <==> !StartsWith(s, REMOTE_PATH) && !StartsWith(s, REMOTE)
  {
    assert |REMOTE_PATH| > 0 && |REMOTE| > 0;
  }

  lemma PlainWhenKept(t: string, bare: string)
    requires t != "" && !IsSpace(t[0]) && bare == Unqualified(t) && bare != ""
    requires !(StartsWith(t, REMOTE_PATH) && StartsWith(t, REMOTE))
    ensures !IsSpace(bare[0]) && !StartsWith(bare, REMOTE_PATH) && !StartsWith(bare, REMOTE)
       <==> PlainBehind(t, REMOTE_PATH) && PlainBehind(t, REMOTE)
  {
  }

  lemma NothingBehind(t: string)
    requires t == "" || Unqualified(t) == ""
    ensures PlainBehind(t, REMOTE_PATH) && PlainBehind(t, REMOTE)
  {
    OneQualifier(t);
  }

  lemma BareUnchanged(s: string)
    requires s != "" && !IsSpace(s[|s| - 1])
    ensures BareBranchName(Some(s)) == Some(s) <==> !IsSpace(s[0]) && Unqualified(s) == s
  {
    if IsSpace(s[0]) {
      assert |TrimStart(s)| < |s|;
      assert |Unqualified(Trim(s))| < |s|;
    } else {
      TrimIdle(s);
    }
  }

  /** A doubly qualified ref is one that differs: its plain name is still qualified. */
  lemma BareTwiceDiffers(name: string)
    requires name != "" && !IsSpace(name[|name| - 1])
    ensures BareBranchName(Some(REMOTE + (REMOTE + name))) == Some(REMOTE + name)
    ensures BareBranchName(Some(REMOTE + name)) == Some(name)
  {
    BareOfQualified(REMOTE + name);
    BareOfQualified(name);
  }

  /** Whatever slashes the prefix ends in, the name has one between it and the slug; a prefix
      of nothing but slashes is none. */
  lemma JoinedByOneSlash(prefix: string, slashes: string, slug: string)
    requires prefix == "" || prefix[|prefix| - 1] != '/'
    requires forall k :: 0 <= k < |slashes| ==> slashes[k] == '/'
    ensures JoinBranchName(prefix + slashes, slug) == if prefix == "" then slug else prefix + "/" + slug
  {
    NormalizedUnique(prefix + slashes, |prefix|);
    assert (prefix + slashes)[..|prefix|] == prefix;
  }

  /** A plain branch name and its two qualified forms all stand for it. */
  lemma PlainNameRead(name: string)
    requires name != "" && !IsSpace(name[0]) && !IsSpace(name[|name| - 1])
    requires !StartsWith(name, REMOTE_PATH) && !StartsWith(name, REMOTE)
    ensures BareBranchName(Some(name)) == Some(name)
    ensures BareBranchName(Some(REMOTE + name)) == Some(name)
    ensures OriginQualifiedRef(Some(name)) == Some(REMOTE + name)
  {
    BareOfQualified(name);
    TrimIdle(name);
  }

  lemma PathNameRead(name: string)
    requires name != "" && !IsSpace(name[|name| - 1])
    ensures BareBranchName(Some(REMOTE_PATH + name)) == Some(name)
  {
    TrimPath(REMOTE_PATH + name, name);
    PathBehind(REMOTE_PATH + name, name);
    BareOfTrimmed(REMOTE_PATH + name, name);
  }

  lemma TrimPath(s: string, name: string)
    requires name != "" && !IsSpace(name[|name| - 1])
    requires s == REMOTE_PATH + name
    ensures s != "" && Trim(s) == s
  {
    assert s[0] == 'r';
    TrimIdle(s);
  }

  lemma PathBehind(s: string, name: string)
    requires s == REMOTE_PATH + name
    ensures Unqualified(s) == name
  {
    assert s[..|REMOTE_PATH|] == REMOTE_PATH && s[|REMOTE_PATH|..] == name;
  }
}
