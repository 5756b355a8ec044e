/** The older draft of the record in `src/prinfo_gh.rs`: a check with a
    mandatory conclusion, its bracketed label with the two-character pending
    placeholder, the head sha, and the newline-joined checks block of the
    record's text form. The draft declares its own check enums, but its label
    match names upper-case variants that neither enum has, so it does not
    compile as written; the model follows its evident intent and reads the
    label over the enums of `Models`. */
module PrInfoGh {
  import opened Wrappers
  import opened Models
  import opened PrInfoOps

  /** The draft's placeholder for a check that has not completed. */
  const LegacyPendingLabel := ".."

  /** The draft's `StatusCheck`: a check run whose conclusion is always
      present. The timestamps, URLs, type name and workflow name are not read
      by `to_string` and are left out. */
  datatype LegacyStatusCheck = LegacyStatusCheck(name: string, status: CheckStatusState, conclusion: CheckConclusionState)
  {
    /** The status label of `StatusCheck::to_string`. */
    function Label(): (r: string)
      ensures status != Completed <==> r == LegacyPendingLabel
      ensures status == Completed ==> r in Labels - {PendingLabel}
      ensures r == OkLabel <==> status == Completed && conclusion == CheckConclusionState.Success
      ensures r == PassLabel <==> status == Completed && conclusion in {Cancelled, Neutral}
      ensures r == SkipLabel <==> status == Completed && conclusion == CheckConclusionState.Skipped
      ensures r == FailLabel <==> status == Completed && conclusion.IsFailing()
    {
      if status != Completed then LegacyPendingLabel
      else match conclusion
        case ActionRequired => FailLabel
        case Cancelled => PassLabel
        case Failure => FailLabel
        case Neutral => PassLabel
        case Skipped => SkipLabel
        case Stale => FailLabel
        case StartupFailure => FailLabel
        case Success => OkLabel
        case TimedOut => FailLabel
    }

    /** `StatusCheck::to_string`: the label in brackets, a space, the name. */
    function ToString(): (r: string)
      ensures |r| == |Label()| + 3 + |name|
      ensures r[0] == '[' && r[1..|Label()| + 1] == Label()
      ensures r[|Label()| + 1..|Label()| + 3] == "] " && r[|Label()| + 3..] == name
    {
      "[" + Label() + "] " + name
    }
  }

  /** The same check as a run of the newer model. */
  function AsCheckRun(c: LegacyStatusCheck): (r: StatusCheck)
    ensures r.CheckRun? && r.Name() == c.name && r.IsComplete() == (c.status == Completed)
  {
    CheckRun(c.name, c.status, Some(c.conclusion))
  }

  /** On a completed check the draft and the newer mapping agree, label and
      display alike. */
  lemma LegacyAgreesWhenComplete(c: LegacyStatusCheck)
    requires c.status == Completed
    ensures c.Label() == AsCheckRun(c).ShortStatusStr()
    ensures c.ToString() == AsCheckRun(c).ToString()
  {
  }

  /** On an incomplete check the draft's placeholder is the newer one without
      its padding, so the draft's line is two characters shorter. */
  lemma LegacyPendingIsUnpadded(c: LegacyStatusCheck)
    requires c.status != Completed
    ensures " " + c.Label() + " " == AsCheckRun(c).ShortStatusStr()
    ensures |c.ToString()| + 2 == |AsCheckRun(c).ToString()|
  {
  }

  /** The second character of a line tells the placeholder from the four
      labels, so a line determines its label and its name. */
  lemma LegacyDisplayInjective(a: LegacyStatusCheck, b: LegacyStatusCheck)
    ensures a.ToString() == b.ToString() <==> a.Label() == b.Label() && a.name == b.name
  {
    if a.ToString() == b.ToString() {
      assert a.ToString()[1] == a.Label()[0];
      assert b.ToString()[1] == b.Label()[0];
      assert |a.Label()| == |b.Label()|;
      assert a.ToString()[1..|a.Label()| + 1] == b.ToString()[1..|b.Label()| + 1];
      assert a.ToString()[|a.Label()| + 3..] == b.ToString()[|b.Label()| + 3..];
    }
  }

  /** A label holds no newline, so a line holds one only through its name. */
  lemma LineHasNoNewline(c: LegacyStatusCheck)
    requires '\n' !in c.name
    ensures '\n' !in c.ToString()
  {
    var s := c.ToString();
    var n := |c.Label()|;
    forall k | 0 <= k < |s|
      ensures s[k] != '\n'
    {
      if k == 0 {
      } else if k <= n {
        assert s[k] == s[1..n + 1][k - 1];
      } else if k < n + 3 {
        assert s[k] == s[n + 1..n + 3][k - n - 1];
      } else {
        assert s[k] == s[n + 3..][k - n - 3];
      }
    }
  }

  /** The draft record: the commits and the rollup are all `sha` and the
      checks block read. */
  datatype LegacyPrInfo = LegacyPrInfo(commits: seq<Commit>, statusCheckRollup: seq<LegacyStatusCheck>)

  /** Each check's line, in rollup order. */
  function CheckLines(checks: seq<LegacyStatusCheck>): (r: seq<string>)
    ensures |r| == |checks|
    ensures forall i :: 0 <= i < |checks| ==> r[i] == checks[i].ToString()
  {
    if checks == [] then [] else CheckLines(checks[..|checks| - 1]) + [checks[|checks| - 1].ToString()]
  }

  /** The `{checks}` part of `PrInfo::to_string`: the lines joined by `\n`. */
  function ChecksBlock(info: LegacyPrInfo): string
  {
    MapToString(CheckLines(info.statusCheckRollup))
  }

  /** An empty rollup leaves the block empty; a single check is its own line. */
  lemma ChecksBlockSmall(info: LegacyPrInfo)
    ensures info.statusCheckRollup == [] ==> ChecksBlock(info) == ""
    ensures |info.statusCheckRollup| == 1 ==> ChecksBlock(info) == info.statusCheckRollup[0].ToString()
  {
  }

  /** When no check name holds a newline, splitting the block at newlines
      gives back one line per check, in rollup order. */
  lemma ChecksBlockLines(info: LegacyPrInfo)
    requires info.statusCheckRollup != []
    requires forall i :: 0 <= i < |info.statusCheckRollup| ==> '\n' !in info.statusCheckRollup[i].name
    ensures SplitLines(ChecksBlock(info)) == CheckLines(info.statusCheckRollup)
    ensures forall i :: 0 <= i < |info.statusCheckRollup| ==>
      SplitLines(ChecksBlock(info))[i] == info.statusCheckRollup[i].ToString()
  {
    var lines := CheckLines(info.statusCheckRollup);
    forall i | 0 <= i < |lines|
      ensures '\n' !in lines[i]
    {
      LineHasNoNewline(info.statusCheckRollup[i]);
    }
    MapToStringRoundTrip(lines);
  }
}
