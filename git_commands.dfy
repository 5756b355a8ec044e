/** The string and selection helpers of `src/git_commands.rs`. The
    repository is abstracted to what these helpers read of it. */
module GitCommands {
  import opened Wrappers
  import opened Strings

  /** What the helpers read of a repository: the shorthand of `HEAD` (`None`
      when `HEAD` cannot be read or its shorthand is not UTF-8), and the local
      branches by shorthand, each with its `name()` (`None` when the name is
      not valid UTF-8 or cannot be read). */
  datatype Repo = Repo(head: Option<string>, branches: map<string, Option<string>>)

  /** `remote_gh_name` on the origin URL: the text strictly between the first
      `/` and the first `.git`. `None` stands for the panics of the source: no
      `/`, no `.git`, or a `.git` that starts before the character after the
      first `/`. */
  function RemoteGhName(url: string): (r: Option<string>)
    ensures r.None? <==>
      || !Occurs(url, "/") || !Occurs(url, ".git")
      || IndexOf(url, "/").value + 1 > IndexOf(url, ".git").value
    ensures r.Some? ==> exists i: nat, j: nat ::
      && MatchAt(url, "/", i) && (forall k: nat :: k < i ==> !MatchAt(url, "/", k))
      && MatchAt(url, ".git", j) && (forall k: nat :: k < j ==> !MatchAt(url, ".git", k))
      && i + 1 <= j && r.value == url[i + 1..j]
  {
    match (IndexOf(url, "/"), IndexOf(url, ".git"))
    case (Some(i), Some(j)) => if i + 1 <= j then Some(url[i + 1..j]) else None
    case _ => None
  }

  /** `.git` does not start inside an earlier copy of itself: a match that
      starts in the three characters before a match is impossible. */
  lemma GitSuffixNoOverlap(s: string, p: nat, j: nat)
    requires MatchAt(s, ".git", p) && p - 3 <= j < p
    ensures !MatchAt(s, ".git", j)
  {
    assert s[p] == '.';
    if j + 4 <= |s| {
      assert s[j..j + 4][p - j] == s[p];
    }
  }

  /** Reading an origin URL of the form `<host>/<name>.git<rest>` back: the
      name comes out, provided the host holds no `/` and `.git` does not
      occur before the suffix. */
  lemma {:induction false} RemoteGhNameRoundTrip(host: string, name: string, rest: string)
    requires '/' !in host
    requires forall j: nat :: !MatchAt(host + "/" + name, ".git", j)
    ensures RemoteGhName(host + "/" + name + ".git" + rest) == Some(name)
  {
    var pre := host + "/" + name;
    var url := pre + ".git" + rest;
    var p := |pre|;
    assert url[|host|] == '/';
    assert MatchAt(url, "/", |host|);
    forall j: nat | j < |host|
      ensures !MatchAt(url, "/", j)
    {
      assert url[j..j + 1][0] == host[j];
    }
    assert IndexOf(url, "/") == Some(|host|);
    assert url[p..p + 4] == ".git";
    assert MatchAt(url, ".git", p);
    forall j: nat | j < p
      ensures !MatchAt(url, ".git", j)
    {
      if j + 4 <= p {
        assert url[j..j + 4] == pre[j..j + 4];
        assert !MatchAt(pre, ".git", j);
      } else {
        GitSuffixNoOverlap(url, p, j);
      }
    }
    assert IndexOf(url, ".git") == Some(p);
    assert url[|host| + 1..p] == name;
  }

  /** An `https://` origin keeps the host: the first `/` is the scheme's, so
      the text after it begins with the second `/` of `//`. */
  lemma RemoteGhNameOfSchemeUrl(scheme: string, path: string, rest: string)
    requires '/' !in scheme
    requires forall j: nat :: !MatchAt(scheme + "//" + path, ".git", j)
    ensures RemoteGhName(scheme + "//" + path + ".git" + rest) == Some("/" + path)
  {
    assert scheme + "//" + path == scheme + "/" + ("/" + path);
    RemoteGhNameRoundTrip(scheme, "/" + path, rest);
  }

  /** `current_branch_name`: the name of the local branch `HEAD` points to;
      `None` when `HEAD` cannot be read, has no UTF-8 shorthand, names no
      local branch, or that branch's name is not UTF-8. */
  function CurrentBranchName(repo: Repo): (r: Option<string>)
    ensures r.Some? ==> (repo.head.Some? && repo.head.value in repo.branches && repo.branches[repo.head.value] == r)
    ensures repo.head.Some? && repo.head.value in repo.branches ==> r == repo.branches[repo.head.value]
    ensures repo.head.None? || repo.head.value !in repo.branches ==> r.None?
  {
    match repo.head
    case None => None
    case Some(shorthand) =>
      if shorthand in repo.branches then repo.branches[shorthand] else None
  }

  /** `get_main_branch`: try `main`, then `master`; the first local branch
      found is returned, and the error text when neither exists. */
  method GetMainBranch(repo: Repo) returns (r: Result<string, string>)
    ensures r.Ok? <==> "main" in repo.branches || "master" in repo.branches
    ensures r.Ok? && "main" in repo.branches ==> r.value == "main"
    ensures r.Ok? && "main" !in repo.branches ==> r.value == "master"
    ensures r.Err? ==> r.error == "no branch found"
  {
    var candidates := ["main", "master"];
    var i := 0;
    while i < |candidates|
      invariant 0 <= i <= |candidates| == 2
      invariant candidates[0] == "main" && candidates[1] == "master"
      invariant forall j :: 0 <= j < i ==> candidates[j] !in repo.branches
    {
      if candidates[i] in repo.branches {
        return Ok(candidates[i]);
      }
      i := i + 1;
    }
    return Err("no branch found");
  }
}
