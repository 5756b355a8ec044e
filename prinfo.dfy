/** The record helpers of `src/prinfo/prinfo.rs`: joining display strings,
    the head sha, the completion predicate, the fetch that stamps the record,
    and the time-gated refresh. The shared record that `update` changes in
    place is the class `PrInfoCell`. */
module PrInfoOps {
  import opened Wrappers
  import opened Strings
  import opened Models

  /** Seconds that must pass since the last fetch before `update` refetches. */
  const RefreshSeconds: nat := 15

  /** `map_to_string`: the items joined by newlines. */
  function MapToString(items: seq<string>): (r: string)
    ensures items == [] ==> r == ""
    ensures |items| == 1 ==> r == items[0]
  {
    if |items| == 0 then ""
    else if |items| == 1 then items[0]
    else items[0] + "\n" + MapToString(items[1..])
  }

  /** Splits a string at every newline; the inverse of `MapToString`. */
  function SplitLines(s: string): (r: seq<string>)
    ensures |r| >= 1
    decreases |s|
  {
    if s == [] then [""]
    else
      var rest := SplitLines(s[1..]);
      if s[0] == '\n' then [""] + rest else [[s[0]] + rest[0]] + rest[1..]
  }

  lemma {:induction false} SplitLinesOfLine(a: string, rest: string)
    requires '\n' !in a
    ensures SplitLines(a) == [a]
    ensures SplitLines(a + "\n" + rest) == [a] + SplitLines(rest)
    decreases |a|
  {
    if a == [] {
      assert (a + "\n" + rest)[1..] == rest;
    } else {
      SplitLinesOfLine(a[1..], rest);
      assert (a + "\n" + rest)[1..] == a[1..] + "\n" + rest;
      assert [a[0]] + a[1..] == a;
    }
  }

  /** Joining lines that hold no newline can be undone by splitting. */
  lemma {:induction false} MapToStringRoundTrip(items: seq<string>)
    requires items != []
    requires forall i :: 0 <= i < |items| ==> '\n' !in items[i]
    ensures SplitLines(MapToString(items)) == items
    decreases |items|
  {
    if |items| == 1 {
      SplitLinesOfLine(items[0], "");
    } else {
      SplitLinesOfLine(items[0], MapToString(items[1..]));
      MapToStringRoundTrip(items[1..]);
      assert [items[0]] + items[1..] == items;
    }
  }

  /** `PrInfo::sha`: the object id of the newest (last) commit. The source
      unwraps `commits.last()`, so a record without commits is refused. */
  function Sha(info: PrInfo): (r: string)
    requires info.commits != []
    ensures r == info.commits[|info.commits| - 1].oid
  {
    info.commits[|info.commits| - 1].oid
  }

  /** Appending a commit moves the sha to it. */
  lemma ShaFollowsNewestCommit(info: PrInfo, c: Commit)
    ensures Sha(info.(commits := info.commits + [c])) == c.oid
  {
  }

  /** `iter().all(is_complete)` over the rollup. */
  function AllComplete(checks: seq<StatusCheck>): (r: bool)
    ensures r <==> forall i :: 0 <= i < |checks| ==> checks[i].IsComplete()
  {
    if checks == [] then true else checks[0].IsComplete() && AllComplete(checks[1..])
  }

  /** `PrInfo::is_complete`: every check of the rollup is complete, which
      holds vacuously for an empty rollup. */
  predicate IsComplete(info: PrInfo)
  {
    AllComplete(info.statusCheckRollup)
  }

  lemma EmptyRollupIsComplete(info: PrInfo)
    requires info.statusCheckRollup == []
    ensures IsComplete(info)
  {
  }

  /** A record whose checks are all complete is complete; one incomplete check
      keeps it running. */
  lemma {:induction false} IsCompleteOnAppend(checks: seq<StatusCheck>, c: StatusCheck)
    ensures AllComplete(checks + [c]) <==> AllComplete(checks) && c.IsComplete()
  {
    assert forall i :: 0 <= i < |checks| ==> (checks + [c])[i] == checks[i];
    assert (checks + [c])[|checks|] == c;
  }

  /** What running `gh pr list --json ... -H <branch>` produced: the shell
      failed, or it printed `stdout`, which parsed to a one-element array
      (`parsed` holds the element) or did not (`parsed` is `None`). */
  datatype ShellResult = ShellFailed | Ran(stdout: string, parsed: Option<PrInfo>)

  /** The pull-request source: what the command prints for a branch at a time. */
  type Source = (string, nat) -> ShellResult

  /** `PrInfo::get`: fetch the record for `branch` at time `now`; `None` when
      the shell fails, prints nothing, or prints something that does not
      parse. A fetched record is stamped with the fetch time. */
  function Get(branch: string, now: nat, source: Source): (r: Option<PrInfo>)
    ensures r.Some? <==>
      source(branch, now).Ran? && source(branch, now).stdout != "" && source(branch, now).parsed.Some?
    ensures r.Some? ==> r.value.stampedAt == Some(now)
    ensures r.Some? ==> r.value.(stampedAt := None) == source(branch, now).parsed.value.(stampedAt := None)
  {
    match source(branch, now)
    case ShellFailed => None
    case Ran(stdout, parsed) =>
      if stdout == "" then None
      else match parsed
        case None => None
        case Some(info) => Some(info.(stampedAt := Some(now)))
  }

  /** `PrInfo::update` as a function of the record, the time and the source.
      `None` stands for the panics of the source: an unstamped record
      (`unwrap` of `__createdAt`), a clock earlier than the stamp (`unwrap`
      of `duration_since`) and a failed refetch (`expect`). */
  function Refresh(info: PrInfo, now: nat, source: Source): (r: Option<PrInfo>)
    ensures info.stampedAt.None? || now < info.stampedAt.value ==> r.None?
    ensures info.stampedAt.Some? && info.stampedAt.value <= now < info.stampedAt.value + RefreshSeconds
      ==> r == Some(info)
    ensures info.stampedAt.Some? && info.stampedAt.value + RefreshSeconds <= now
      ==> r == Get(info.headRefName, now, source)
    ensures r.Some? ==> r.value.stampedAt.Some? && info.stampedAt.value <= r.value.stampedAt.value <= now
  {
    match info.stampedAt
    case None => None
    case Some(t) =>
      if now < t then None
      else if now - t >= RefreshSeconds then Get(info.headRefName, now, source)
      else Some(info)
  }

  /** Once a refresh has fetched at time `t`, no call before `t + 15` fetches
      again: the record is returned unchanged. */
  lemma {:induction false} AtMostOneFetchPerWindow(info: PrInfo, t: nat, later: nat, source: Source)
    requires Refresh(info, t, source).Some?
    requires t <= later
    requires later < Refresh(info, t, source).value.stampedAt.value + RefreshSeconds
    ensures Refresh(Refresh(info, t, source).value, later, source) == Refresh(info, t, source)
  {
  }

  /** The record shared by the tick loop and the refresh task
      (`Arc<Mutex<PrInfo>>`), whose `update` replaces it in place. */
  class PrInfoCell {
    var info: PrInfo

    constructor (info: PrInfo)
      ensures this.info == info
    {
      this.info := info;
    }

    /** `PrInfo::update`: refetch when at least 15 seconds have passed since
        the stamp, otherwise keep the record; return a copy of the post-state.
        `ok` is false where the source panics, and the record is then left as
        it was (the panic happens before `clone_into`). */
    method Update(now: nat, source: Source) returns (ok: bool, copy: PrInfo)
      modifies this
      ensures ok <==> Refresh(old(info), now, source).Some?
      ensures ok ==> Some(info) == Refresh(old(info), now, source)
      ensures !ok ==> info == old(info)
      ensures copy == info
    {
      ok := false;
      if info.stampedAt.Some? && info.stampedAt.value <= now {
        if now - info.stampedAt.value >= RefreshSeconds {
          var fetched := Get(info.headRefName, now, source);
          if fetched.Some? {
            info := fetched.value;
            ok := true;
          }
        } else {
          ok := true;
        }
      }
      copy := info;
    }
  }
}
