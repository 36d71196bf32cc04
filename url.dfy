/** `parseGitHubUrl` (src/pages/Dashboard.jsx): the owner and repository
    named by the first two non-empty segments of a URL's path. The WHATWG URL
    parser is not part of this model: the parsed `pathname` is the input, and
    `None` stands for a string `new URL` rejects. */
module GitHubUrl {
  import opened Wrappers
  import opened Strings

  datatype RepoRef = RepoRef(owner: string, repo: string)

  /** `{ owner: parts[0], repo: parts[1] }` for the non-empty segments
      `parts` of the path, `null` when there are fewer than two or the URL
      does not parse. */
  function ParseGitHubUrl(pathname: Option<string>): (r: Option<RepoRef>)
    ensures pathname.None? ==> r.None?
    ensures pathname.Some? ==> (r.Some? <==> |NonEmpty(Split(pathname.value, '/'))| >= 2)
    ensures r.Some? ==> r.value.owner != "" && r.value.repo != ""
    ensures r.Some? ==> '/' !in r.value.owner && '/' !in r.value.repo
  {
    if pathname.None? then None
    else
      var parts := NonEmpty(Split(pathname.value, '/'));
      NonEmptyNoSep(Split(pathname.value, '/'), '/');
      if |parts| >= 2 then Some(RepoRef(parts[0], parts[1])) else None
  }

  /** `"/" + s` splits into an empty first part and the parts of `s`. */
  lemma SplitAfterSlash(s: string)
    ensures Split("/" + s, '/') == [""] + Split(s, '/')
  {
    SplitConcat("", s, '/');
    assert "" + ['/'] + s == "/" + s;
  }

  /** The parts of `/owner/repo`. */
  lemma SplitOwnerRepo(owner: string, repo: string)
    requires '/' !in owner && '/' !in repo
    ensures Split("/" + owner + "/" + repo, '/') == ["", owner, repo]
  {
    SplitAfterSlash(owner);
    SplitConcat("/" + owner, repo, '/');
  }

  /** `/owner/repo/anything` names `owner` and `repo`: later segments are
      ignored and nothing (such as a `.git` suffix) is stripped. */
  lemma ParseOwnerRepo(owner: string, repo: string, rest: string)
    requires owner != "" && repo != "" && '/' !in owner && '/' !in repo
    ensures ParseGitHubUrl(Some("/" + owner + "/" + repo + "/" + rest)) == Some(RepoRef(owner, repo))
  {
    var tail := Split(rest, '/');
    SplitOwnerRepo(owner, repo);
    SplitConcat("/" + owner + "/" + repo, rest, '/');
    var parts := ["", owner, repo] + tail;
    assert parts[1..][1..][1..] == tail;
    assert NonEmpty(parts) == NonEmpty(parts[1..]);
    assert NonEmpty(parts[1..]) == [owner] + NonEmpty(parts[1..][1..]);
    assert NonEmpty(parts[1..][1..]) == [repo] + NonEmpty(tail);
  }

  /** `/owner/repo` names `owner` and `repo`. */
  lemma ParseOwnerRepoExact(owner: string, repo: string)
    requires owner != "" && repo != "" && '/' !in owner && '/' !in repo
    ensures ParseGitHubUrl(Some("/" + owner + "/" + repo)) == Some(RepoRef(owner, repo))
  {
    SplitOwnerRepo(owner, repo);
    var parts := ["", owner, repo];
    assert parts[1..][1..][1..] == [];
    assert NonEmpty(parts) == NonEmpty(parts[1..]);
    assert NonEmpty(parts[1..]) == [owner] + NonEmpty(parts[1..][1..]);
    assert NonEmpty(parts[1..][1..]) == [repo];
  }

  /** A path with at most one segment names no repository. */
  lemma ParseTooShort(owner: string)
    requires '/' !in owner
    ensures ParseGitHubUrl(Some("/" + owner)) == None
    ensures ParseGitHubUrl(Some("/" + owner + "/")) == None
  {
    SplitAfterSlash(owner);
    assert ["", owner][1..][1..] == [];
    TrailingSlashIgnored("/" + owner);
  }

  /** Doubling a `/` anywhere in the path changes nothing. */
  lemma RepeatedSlashIgnored(a: string, b: string)
    ensures ParseGitHubUrl(Some(a + "//" + b)) == ParseGitHubUrl(Some(a + "/" + b))
  {
    SplitConcat(a, "/" + b, '/');
    assert a + "//" + b == a + ['/'] + ("/" + b);
    SplitAfterSlash(b);
    SplitConcat(a, b, '/');
    assert a + "/" + b == a + ['/'] + b;
    NonEmptyConcat(Split(a, '/'), [""] + Split(b, '/'));
    NonEmptyConcat([""], Split(b, '/'));
    NonEmptyConcat(Split(a, '/'), Split(b, '/'));
    assert Split(a, '/') + ([""] + Split(b, '/')) == Split(a + "//" + b, '/');
  }

  /** A trailing `/` changes nothing. */
  lemma TrailingSlashIgnored(p: string)
    ensures ParseGitHubUrl(Some(p + "/")) == ParseGitHubUrl(Some(p))
  {
    SplitConcat(p, "", '/');
    assert p + "/" == p + ['/'] + "";
    NonEmptyConcat(Split(p, '/'), [""]);
    assert NonEmpty([""]) == [];
    assert NonEmpty(Split(p, '/')) + [] == NonEmpty(Split(p, '/'));
  }
}
