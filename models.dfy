/** The data model of `src/prinfo/models.rs`: the check-status enums, the
    two-variant `StatusCheck`, `File`, and the slice of `PrInfo` the dashboard
    reads; with completion, the four-character status label, its colour and
    the `Display` forms. */
module Models {
  import opened Wrappers
  import opened Strings

  /** Status of a check run. */
  datatype CheckStatusState = Completed | InProgress | Pending | Queued | Requested | Waiting
  {
    /** `CheckStatusState::is_complete`. */
    predicate IsComplete()
      ensures IsComplete() <==> this == Completed
      ensures !IsComplete() <==> this in {InProgress, CheckStatusState.Pending, Queued, Requested, Waiting}
    {
      match this
      case Completed => true
      case _ => false
    }
  }

  /** Conclusion of a completed check run. */
  datatype CheckConclusionState =
    | ActionRequired | Cancelled | Failure | Neutral | Skipped | Stale | StartupFailure | Success | TimedOut
  {
    /** The conclusions the label maps to "Fail". */
    predicate IsFailing()
    {
      this in {ActionRequired, CheckConclusionState.Failure, Stale, StartupFailure, TimedOut}
    }
  }

  /** State of a commit status context. */
  datatype StatusContextState = Error | Expected | Failure | Pending | Success
  {
    /** `StatusContextState::is_complete`. */
    predicate IsComplete()
      ensures IsComplete() <==> this in {StatusContextState.Success, StatusContextState.Failure, Error}
      ensures !IsComplete() <==> this in {Expected, StatusContextState.Pending}
    {
      match this
      case Success => true
      case Failure => true
      case Error => true
      case _ => false
    }
  }

  /** The wire name of a conclusion (`#[serde(rename_all = "SCREAMING_SNAKE_CASE")]`). */
  function ConclusionName(c: CheckConclusionState): string
  {
    match c
    case ActionRequired => "ACTION_REQUIRED"
    case Cancelled => "CANCELLED"
    case Failure => "FAILURE"
    case Neutral => "NEUTRAL"
    case Skipped => "SKIPPED"
    case Stale => "STALE"
    case StartupFailure => "STARTUP_FAILURE"
    case Success => "SUCCESS"
    case TimedOut => "TIMED_OUT"
  }

  /** The derived deserializer of a conclusion: a JSON string naming a variant
      (`v` is `None` for JSON `null`), or an error for anything else. */
  function DeserializeConclusion(v: Option<string>): (r: Result<CheckConclusionState, string>)
    ensures r.Ok? ==> v == Some(ConclusionName(r.value))
  {
    match v
    case None => Err("invalid type: null")
    case Some(s) =>
      if s == "ACTION_REQUIRED" then Ok(ActionRequired)
      else if s == "CANCELLED" then Ok(Cancelled)
      else if s == "FAILURE" then Ok(CheckConclusionState.Failure)
      else if s == "NEUTRAL" then Ok(Neutral)
      else if s == "SKIPPED" then Ok(Skipped)
      else if s == "STALE" then Ok(Stale)
      else if s == "STARTUP_FAILURE" then Ok(StartupFailure)
      else if s == "SUCCESS" then Ok(CheckConclusionState.Success)
      else if s == "TIMED_OUT" then Ok(TimedOut)
      else Err("unknown variant")
  }

  /** `error_as_none`: a conclusion that fails to deserialize becomes `None`
      instead of failing the whole record. */
  function ErrorAsNone(v: Option<string>): (r: Option<CheckConclusionState>)
    ensures r.Some? <==> DeserializeConclusion(v).Ok?
    ensures r.Some? ==> v == Some(ConclusionName(r.value))
  {
    match DeserializeConclusion(v)
    case Ok(c) => Some(c)
    case Err(_) => None
  }

  /** Every wire name reads back as its own conclusion. */
  lemma ErrorAsNoneRoundTrip(c: CheckConclusionState)
    ensures ErrorAsNone(Some(ConclusionName(c))) == Some(c)
  {
  }

  /** `None` exactly for `null` and for strings that name no conclusion. */
  lemma ErrorAsNoneIsNone(v: Option<string>)
    ensures ErrorAsNone(v).None? <==> (v.None? || forall c: CheckConclusionState :: ConclusionName(c) != v.value)
  {
    if v.Some? && ErrorAsNone(v).None? {
      forall c: CheckConclusionState ensures ConclusionName(c) != v.value {
        ErrorAsNoneRoundTrip(c);
      }
    }
  }

  const OkLabel := " OK "
  const PassLabel := "Pass"
  const FailLabel := "Fail"
  const SkipLabel := "Skip"
  const PendingLabel := " .. "

  /** The closed set of status labels. */
  const Labels: set<string> := {OkLabel, PassLabel, FailLabel, SkipLabel, PendingLabel}

  /** The colours the dashboard gives a label. */
  datatype Color = Green | White | Red | Yellow

  /** One CI check of the rollup, tagged by `__typename`. The timestamps, URLs
      and workflow name are not read by the core and are left out. */
  datatype StatusCheck =
    | CheckRun(name: string, status: CheckStatusState, conclusion: Option<CheckConclusionState>)
    | StatusContext(context: string, state: StatusContextState)
  {
    /** `StatusCheck::name`. */
    function Name(): (r: string)
      ensures CheckRun? ==> r == name
      ensures StatusContext? ==> r == context
    {
      match this
      case CheckRun(name, _, _) => name
      case StatusContext(context, _) => context
    }

    /** `StatusCheck::is_complete`: dispatch to the variant's own state. */
    predicate IsComplete()
      ensures IsComplete() <==> (CheckRun? && status == Completed) || (StatusContext? && state in {StatusContextState.Success, StatusContextState.Failure, StatusContextState.Error})
    {
      match this
      case CheckRun(_, status, _) => status.IsComplete()
      case StatusContext(_, state) => state.IsComplete()
    }

    /** A completed run with this conclusion. */
    predicate Concluded(c: CheckConclusionState)
    {
      CheckRun? && status == Completed && conclusion == Some(c)
    }

    /** `StatusCheck::short_status_str`. Incomplete checks return early, so
        the `Expected` and `Pending` contexts never reach the inner match: the
        verifier proves those missing cases (the source's `panic!` arm)
        unreachable. The run's `_ => panic!` arm is dead because all nine
        conclusions are listed. */
    function ShortStatusStr(): (r: string)
      ensures r in Labels && |r| == 4
      ensures !IsComplete() ==> r == PendingLabel
      ensures r == OkLabel <==> Concluded(CheckConclusionState.Success)
      ensures r == SkipLabel <==> Concluded(Skipped)
      ensures r == PassLabel <==>
        Concluded(Cancelled) || Concluded(Neutral) || (StatusContext? && state == StatusContextState.Success)
      ensures r == FailLabel <==>
        (CheckRun? && status == Completed && conclusion.Some? && conclusion.value.IsFailing())
        || (StatusContext? && state in {StatusContextState.Error, StatusContextState.Failure})
      ensures r == PendingLabel <==> !IsComplete() || (CheckRun? && conclusion.None?)
    {
      if !IsComplete() then PendingLabel
      else match this
        case CheckRun(_, _, conclusion) =>
          (match conclusion
           case None => PendingLabel
           case Some(c) =>
             match c
             case ActionRequired => FailLabel
             case Cancelled => PassLabel
             case Failure => FailLabel
             case Neutral => PassLabel
             case Skipped => SkipLabel
             case Stale => FailLabel
             case StartupFailure => FailLabel
             case Success => OkLabel
             case TimedOut => FailLabel)
        case StatusContext(_, state) =>
          match state
          case Error => FailLabel
          case Failure => FailLabel
          case Success => PassLabel
    }

    /** The colour of `short_status_string_with_color`. */
    function StatusColor(): (r: Color)
      ensures r == Green <==> Concluded(CheckConclusionState.Success)
      ensures r == Yellow <==> Concluded(Skipped)
      ensures r == Red <==> ShortStatusStr() == FailLabel
      ensures r == White <==> ShortStatusStr() in {PassLabel, PendingLabel}
    {
      var status := ShortStatusStr();
      if status == OkLabel then Green
      else if status == PassLabel then White
      else if status == FailLabel then Red
      else if status == SkipLabel then Yellow
      else White
    }

    /** `Display for StatusCheck`: `"[{status}] {name}"`. */
    function ToString(): (r: string)
      ensures |r| == |Name()| + 7
      ensures r[0] == '[' && r[5..7] == "] "
      ensures r[1..5] == ShortStatusStr() && r[7..] == Name()
    {
      "[" + ShortStatusStr() + "] " + Name()
    }
  }

  /** Two checks display alike exactly when their labels and names agree. */
  lemma StatusCheckDisplayInjective(a: StatusCheck, b: StatusCheck)
    ensures a.ToString() == b.ToString() <==> (a.ShortStatusStr() == b.ShortStatusStr() && a.Name() == b.Name())
  {
    if a.ToString() == b.ToString() {
      assert a.ToString()[1..5] == b.ToString()[1..5];
      assert a.ToString()[7..] == b.ToString()[7..];
    }
  }

  /** One changed file of the pull request. */
  datatype File = File(path: string, additions: nat, deletions: nat)
  {
    /** `Display for File`: the path, a space, one `+` per addition and one
        `-` per deletion. */
    function ToString(): (r: string)
      ensures |r| == |path| + 1 + additions + deletions
      ensures r[..|path|] == path && r[|path|] == ' '
      ensures forall i :: |path| < i <= |path| + additions ==> r[i] == '+'
      ensures forall i :: |path| + additions < i < |r| ==> r[i] == '-'
    {
      path + " " + Repeat('+', additions) + Repeat('-', deletions)
    }
  }

  /** The number of leading `+` characters of a string. */
  function LeadingPluses(s: string): (n: nat)
    ensures n <= |s|
  {
    if s != [] && s[0] == '+' then 1 + LeadingPluses(s[1..]) else 0
  }

  lemma {:induction false} LeadingPlusesOfBars(a: nat, d: nat)
    ensures LeadingPluses(Repeat('+', a) + Repeat('-', d)) == a
    decreases a
  {
    var s := Repeat('+', a) + Repeat('-', d);
    if a > 0 {
      assert s[1..] == Repeat('+', a - 1) + Repeat('-', d);
      LeadingPlusesOfBars(a - 1, d);
    } else if d > 0 {
      assert s[0] == '-';
    }
  }

  /** The diff bars of a file determine its counts. */
  lemma {:induction false} FileDisplayDeterminesCounts(f: File, g: File)
    requires f.path == g.path
    ensures f.ToString() == g.ToString() <==> f == g
  {
    if f.ToString() == g.ToString() {
      var n := |f.path| + 1;
      assert f.ToString()[n..] == Repeat('+', f.additions) + Repeat('-', f.deletions);
      assert g.ToString()[n..] == Repeat('+', g.additions) + Repeat('-', g.deletions);
      LeadingPlusesOfBars(f.additions, f.deletions);
      LeadingPlusesOfBars(g.additions, g.deletions);
    }
  }

  datatype User = User(login: string)

  /** A commit of the pull request; only its object id is read. */
  datatype Commit = Commit(oid: string)

  /** The fields of a pull-request record the dashboard reads. `stampedAt` is
      the source's `__createdAt`: the fetch time, in seconds. */
  datatype PrInfo = PrInfo(
    stampedAt: Option<nat>,
    number: nat,
    title: string,
    url: string,
    body: string,
    state: string,
    author: User,
    createdAt: string,
    updatedAt: string,
    headRefName: string,
    commits: seq<Commit>,
    files: seq<File>,
    statusCheckRollup: seq<StatusCheck>)
}
