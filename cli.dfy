/** The dashboard application of `src/cli.rs`: the registry of progress bars
    held by `App`, the frame built from a record, and the tick loop that
    refreshes the record until every check is complete. */
module Cli {
  import opened Wrappers
  import opened Models
  import opened PrInfoOps
  import opened CliRows
  import opened CliRegistry

  /** How many of `handles` are the bar under `key`. */
  function Count(handles: seq<string>, key: string): (n: nat)
    ensures n <= |handles|
    ensures n == 0 <==> key !in handles
  {
    if handles == [] then 0
    else Count(handles[..|handles| - 1], key) + (if handles[|handles| - 1] == key then 1 else 0)
  }

  lemma {:induction false} CountAppend(a: seq<string>, b: seq<string>, key: string)
    ensures Count(a + b, key) == Count(a, key) + Count(b, key)
    decreases |b|
  {
    if b != [] {
      assert (a + b)[..|a + b| - 1] == a + b[..|b| - 1];
      CountAppend(a, b[..|b| - 1], key);
    } else {
      assert a + b == a;
    }
  }

  /** The bars after `inc(1)` on each handle in turn. */
  function Advance(bars: map<string, Bar>, handles: seq<string>): (r: map<string, Bar>)
    ensures r.Keys == bars.Keys
  {
    if handles == [] then bars
    else
      var m := Advance(bars, handles[..|handles| - 1]);
      var h := handles[|handles| - 1];
      if h in m then m[h := m[h].(position := m[h].position + 1)] else m
  }

  /** Each bar advances once per handle to it, and nothing else changes. */
  lemma {:induction false} AdvanceAt(bars: map<string, Bar>, handles: seq<string>, k: string)
    requires k in bars
    ensures Advance(bars, handles)[k] == bars[k].(position := bars[k].position + Count(handles, k))
    decreases |handles|
  {
    if handles != [] {
      AdvanceAt(bars, handles[..|handles| - 1], k);
    }
  }

  /** The bars after `finish()` on each handle in turn. */
  function FinishEach(bars: map<string, Bar>, handles: seq<string>): (r: map<string, Bar>)
    ensures r.Keys == bars.Keys
  {
    if handles == [] then bars
    else
      var m := FinishEach(bars, handles[..|handles| - 1]);
      var h := handles[|handles| - 1];
      if h in m then m[h := m[h].(finished := true)] else m
  }

  /** Exactly the bars some handle points to are finished; their content and
      progress are kept. */
  lemma {:induction false} FinishEachAt(bars: map<string, Bar>, handles: seq<string>, k: string)
    requires k in bars
    ensures FinishEach(bars, handles)[k] == if k in handles then bars[k].(finished := true) else bars[k]
    decreases |handles|
  {
    if handles != [] {
      var init := handles[..|handles| - 1];
      FinishEachAt(bars, init, k);
      assert k in handles <==> k in init || handles[|handles| - 1] == k;
    }
  }

  lemma FinishEachMarks(bars: map<string, Bar>, handles: seq<string>)
    requires forall i :: 0 <= i < |handles| ==> handles[i] in bars
    ensures forall k :: k in handles ==> k in FinishEach(bars, handles) && FinishEach(bars, handles)[k].finished
  {
    forall k | k in handles
      ensures k in FinishEach(bars, handles) && FinishEach(bars, handles)[k].finished
    {
      FinishEachAt(bars, handles, k);
    }
  }

  /** The application state: the bars by key and their display order. */
  class App {
    var bars: map<string, Bar>
    var order: seq<string>

    ghost predicate Valid()
      reads this
    {
      RegistryValid(bars.Keys, order)
    }

    constructor ()
      ensures Valid() && bars == map[] && order == []
    {
      bars := map[];
      order := [];
    }

    /** `App::pb`: register the bar for `spec.key` if it is new (adding its
        row at the bottom), update its message and prefix when the spec
        gives them, and restyle it. The returned handle is the bar's key. */
    method Pb(spec: Pb) returns (handle: string)
      requires Valid()
      modifies this
      ensures Valid()
      ensures bars == Upsert(old(bars), spec)
      ensures order == OrderAfter(old(order), old(bars), spec.key)
      ensures handle == spec.key && handle in bars
    {
      UpsertValid(bars, order, spec);
      // A new bar is added to the display at once; the handle stored in the
      // map is the one updated below.
      var b := NewBar();
      if spec.key in bars {
        b := bars[spec.key];
      } else {
        order := order + [spec.key];
      }
      if spec.message != "" {
        b := b.(message := spec.message);
      }
      if spec.prefix != "" {
        b := b.(prefix := spec.prefix);
      }
      var template := if spec.template != "" then spec.template
        else if spec.prefix != "" then PrefixTemplate
        else WideMsgTemplate;
      if spec.indent > 0 {
        template := Strings.Repeat(' ', spec.indent) + template;
      }
      var tickChars := if spec.tickChars == "" then DefaultTickChars else spec.tickChars;
      b := b.(template := template, tickChars := tickChars);
      assert template == TemplateFor(spec);
      assert b == Apply(Base(old(bars), spec.key), spec);
      bars := bars[spec.key := b];
      handle := spec.key;
    }

    /** The `map(|pb_args| self.pb(pb_args))` of `get_progress_bars`. */
    method RenderSpecs(specs: seq<Pb>) returns (handles: seq<string>)
      requires Valid()
      modifies this
      ensures Valid()
      ensures bars == UpsertAll(old(bars), specs)
      ensures order == OrderAll(old(order), old(bars), specs)
      ensures handles == KeysOf(specs)
      ensures forall i :: 0 <= i < |handles| ==> handles[i] in bars
    {
      handles := [];
      var i := 0;
      while i < |specs|
        invariant 0 <= i <= |specs|
        invariant bars == UpsertAll(old(bars), specs[..i])
        invariant order == OrderAll(old(order), old(bars), specs[..i])
        invariant handles == KeysOf(specs[..i])
      {
        RenderStep(old(order), old(bars), specs, i);
        UpsertAllValid(old(bars), old(order), specs[..i]);
        var h := Pb(specs[i]);
        handles := handles + [h];
        i := i + 1;
      }
      assert specs[..i] == specs;
      UpsertAllValid(old(bars), old(order), specs);
      UpsertAllHasKeys(old(bars), specs);
    }

    /** `get_progress_bars`: build the frame's rows and register them. */
    method GetProgressBars(info: PrInfo) returns (handles: seq<string>)
      requires Valid() && info.commits != []
      modifies this
      ensures Valid()
      ensures bars == UpsertAll(old(bars), RowSpecs(info))
      ensures order == OrderAll(old(order), old(bars), RowSpecs(info))
      ensures handles == KeysOf(RowSpecs(info))
      ensures forall i :: 0 <= i < |handles| ==> handles[i] in bars
    {
      var specs := BuildRowSpecs(info);
      handles := RenderSpecs(specs);
    }

    /** `pb.inc(1)` on every handle: a bar advances once per handle to it. */
    method IncAll(handles: seq<string>)
      requires Valid()
      requires forall i :: 0 <= i < |handles| ==> handles[i] in bars
      modifies this
      ensures Valid() && order == old(order) && bars.Keys == old(bars).Keys
      ensures bars == Advance(old(bars), handles)
    {
      var i := 0;
      while i < |handles|
        invariant 0 <= i <= |handles|
        invariant order == old(order) && bars.Keys == old(bars).Keys
        invariant bars == Advance(old(bars), handles[..i])
      {
        var h := handles[i];
        assert handles[..i + 1][..i] == handles[..i];
        bars := bars[h := bars[h].(position := bars[h].position + 1)];
        i := i + 1;
      }
      assert handles[..i] == handles;
    }

    /** `pb.finish()` on every handle. */
    method FinishAll(handles: seq<string>)
      requires Valid()
      requires forall i :: 0 <= i < |handles| ==> handles[i] in bars
      modifies this
      ensures Valid() && order == old(order) && bars.Keys == old(bars).Keys
      ensures bars == FinishEach(old(bars), handles)
    {
      var i := 0;
      while i < |handles|
        invariant 0 <= i <= |handles|
        invariant order == old(order) && bars.Keys == old(bars).Keys
        invariant bars == FinishEach(old(bars), handles[..i])
      {
        var h := handles[i];
        assert handles[..i + 1][..i] == handles[..i];
        bars := bars[h := bars[h].(finished := true)];
        i := i + 1;
      }
      assert handles[..i] == handles;
    }

    /** One frame of the loop: render the record and advance every bar of
        the frame once per row naming it. */
    method TickFrame(info: PrInfo)
      requires Valid() && info.commits != []
      modifies this
      ensures Valid()
      ensures order == OrderAll(old(order), old(bars), RowSpecs(info))
      ensures bars == Advance(UpsertAll(old(bars), RowSpecs(info)), KeysOf(RowSpecs(info)))
    {
      var handles := GetProgressBars(info);
      IncAll(handles);
    }

    /** The frame after the loop: render the record once more and finish
        every bar of it. */
    method FinalFrame(last: PrInfo)
      requires Valid() && last.commits != []
      modifies this
      ensures Valid()
      ensures order == OrderAll(old(order), old(bars), RowSpecs(last))
      ensures bars == FinishEach(UpsertAll(old(bars), RowSpecs(last)), KeysOf(RowSpecs(last)))
      ensures forall k :: k in KeysOf(RowSpecs(last)) ==> k in bars && bars[k].finished
    {
      var handles := GetProgressBars(last);
      FinishEachMarks(bars, handles);
      FinishAll(handles);
    }

    /** `run_loop`: fetch the record, then on every tick stop if it is
        complete, otherwise render a frame, advance its bars and refresh the
        record; after the last tick render a final frame and finish its bars.
        The refresh of tick `t` reads the clock at `clock(t + 1)`, the first
        fetch at `clock(0)`. `maxTicks` bounds the number of incomplete
        frames; the source loops for as long as the record stays incomplete. */
    method RunLoop(branch: string, source: Source, clock: nat -> nat, maxTicks: nat) returns (outcome: RunOutcome)
      requires Valid()
      modifies this
      ensures Valid()
      ensures outcome.FetchFailed? <==> Get(branch, clock(0), source).None?
      ensures !outcome.FetchFailed? ==>
        var info0 := Get(branch, clock(0), source).value;
        match outcome
        case Done(ticks, last) =>
          && ticks <= maxTicks
          && (forall t :: 0 <= t < ticks ==> Running(RecordAt(info0, source, clock, t)))
          && RecordAt(info0, source, clock, ticks) == Some(last)
          && IsComplete(last) && last.commits != []
          && (forall k :: k in KeysOf(RowSpecs(last)) ==> k in bars && bars[k].finished)
          && var frames := Rendered(info0, source, clock, ticks);
             && order == OrderAll(TickOrder(old(order), old(bars), frames), TickBars(old(bars), frames), RowSpecs(last))
             && bars == FinishEach(UpsertAll(TickBars(old(bars), frames), RowSpecs(last)), KeysOf(RowSpecs(last)))
        case Aborted(ticks) =>
          && ticks <= maxTicks
          && (forall t :: 0 <= t < ticks ==> Running(RecordAt(info0, source, clock, t)))
          && Halted(RecordAt(info0, source, clock, ticks))
          && bars == TickBars(old(bars), Rendered(info0, source, clock, ticks))
          && order == TickOrder(old(order), old(bars), Rendered(info0, source, clock, ticks))
        case OutOfTicks =>
          && (forall t :: 0 <= t < maxTicks ==> Running(RecordAt(info0, source, clock, t)))
          && RecordAt(info0, source, clock, maxTicks).Some?
          && !IsComplete(RecordAt(info0, source, clock, maxTicks).value)
          && RecordAt(info0, source, clock, maxTicks).value.commits != []
          && bars == TickBars(old(bars), Rendered(info0, source, clock, maxTicks))
          && order == TickOrder(old(order), old(bars), Rendered(info0, source, clock, maxTicks))
        case FetchFailed => false
    {
      var fetched := Get(branch, clock(0), source);
      if fetched.None? {
        return FetchFailed;
      }
      var ticks, current := RunTicks(fetched.value, source, clock, maxTicks);
      if current.None? || current.value.commits == [] {
        return Aborted(ticks);
      }
      if !IsComplete(current.value) {
        return OutOfTicks;
      }
      var last := current.value;
      FinalFrame(last);
      return Done(ticks, last);
    }

    /** One frame of the refresh loop stated against the run so far: after
        it the registry is the one the earlier frames and this one give. */
    method RunFrame(ghost bars0: map<string, Bar>, ghost order0: seq<string>, ghost frames: seq<seq<Pb>>, info: PrInfo)
      requires Valid() && info.commits != []
      requires bars == TickBars(bars0, frames) && order == TickOrder(order0, bars0, frames)
      modifies this
      ensures Valid()
      ensures bars == TickBars(bars0, frames + [RowSpecs(info)])
      ensures order == TickOrder(order0, bars0, frames + [RowSpecs(info)])
    {
      TickStep(bars0, order0, frames, RowSpecs(info));
      TickFrame(info);
    }

    /** One pass of the refresh loop over a running record: render its frame,
        then refresh the shared record at the next tick. */
    method RunStep(ghost bars0: map<string, Bar>, ghost order0: seq<string>,
                   info0: PrInfo, source: Source, clock: nat -> nat, tick: nat, cell: PrInfoCell)
      returns (ok: bool)
      requires Valid()
      requires forall t :: 0 <= t < tick ==> Running(RecordAt(info0, source, clock, t))
      requires RecordAt(info0, source, clock, tick) == Some(cell.info)
      requires Running(RecordAt(info0, source, clock, tick))
      requires bars == TickBars(bars0, Rendered(info0, source, clock, tick))
      requires order == TickOrder(order0, bars0, Rendered(info0, source, clock, tick))
      modifies this, cell
      ensures Valid()
      ensures forall t :: 0 <= t < tick + 1 ==> Running(RecordAt(info0, source, clock, t))
      ensures RecordAt(info0, source, clock, tick + 1) == (if ok then Some(cell.info) else None)
      ensures bars == TickBars(bars0, Rendered(info0, source, clock, tick + 1))
      ensures order == TickOrder(order0, bars0, Rendered(info0, source, clock, tick + 1))
    {
      ghost var info := cell.info;
      RecordAtNext(info0, source, clock, tick, info);
      RunningExtend(info0, source, clock, tick);
      assert Rendered(info0, source, clock, tick + 1) == Rendered(info0, source, clock, tick) + [RowSpecs(info)];
      RunFrame(bars0, order0, Rendered(info0, source, clock, tick), cell.info);
      var copy;
      ok, copy := cell.Update(clock(tick + 1), source);
    }

    /** The ticks of `run_loop` from the first record `info0`: while the
        record is incomplete and the bound allows, render a frame, advance
        its bars and refresh the record. `current` is the record the loop
        stopped at, `None` when a refresh failed; a record without commits
        stops the loop too (its frame would panic on the sha). */
    method RunTicks(info0: PrInfo, source: Source, clock: nat -> nat, maxTicks: nat)
      returns (ticks: nat, current: Option<PrInfo>)
      requires Valid()
      modifies this
      ensures Valid()
      ensures ticks <= maxTicks
      ensures forall t :: 0 <= t < ticks ==> Running(RecordAt(info0, source, clock, t))
      ensures RecordAt(info0, source, clock, ticks) == current
      ensures current.Some? && current.value.commits != [] ==> ticks == maxTicks || IsComplete(current.value)
      ensures bars == TickBars(old(bars), Rendered(info0, source, clock, ticks))
      ensures order == TickOrder(old(order), old(bars), Rendered(info0, source, clock, ticks))
    {
      var cell := new PrInfoCell(info0);
      var tick := 0;
      var lost := false;
      ghost var frames: seq<seq<Pb>> := [];
      while !lost && tick < maxTicks && cell.info.commits != [] && !IsComplete(cell.info)
        invariant 0 <= tick <= maxTicks
        invariant Valid()
        invariant RecordAt(info0, source, clock, tick) == (if lost then None else Some(cell.info))
        invariant forall t :: 0 <= t < tick ==> Running(RecordAt(info0, source, clock, t))
        invariant frames == Rendered(info0, source, clock, tick)
        invariant bars == TickBars(old(bars), frames)
        invariant order == TickOrder(old(order), old(bars), frames)
      {
        var ok := RunStep(old(bars), old(order), info0, source, clock, tick, cell);
        frames := Rendered(info0, source, clock, tick + 1);
        lost := !ok;
        tick := tick + 1;
      }
      ticks := tick;
      current := if lost then None else Some(cell.info);
    }
  }

  /** The registry after a run of frames, each given by its rows: a frame
      registers its rows and advances every bar once per row naming it. */
  function TickBars(bars: map<string, Bar>, frames: seq<seq<Pb>>): map<string, Bar>
  {
    if frames == [] then bars
    else
      var specs := frames[|frames| - 1];
      Advance(UpsertAll(TickBars(bars, frames[..|frames| - 1]), specs), KeysOf(specs))
  }

  /** The display order after a run of frames. */
  function TickOrder(order: seq<string>, bars: map<string, Bar>, frames: seq<seq<Pb>>): seq<string>
  {
    if frames == [] then order
    else
      var init := frames[..|frames| - 1];
      OrderAll(TickOrder(order, bars, init), TickBars(bars, init), frames[|frames| - 1])
  }

  /** One more frame extends the run rendered so far. */
  lemma TickStep(bars: map<string, Bar>, order: seq<string>, frames: seq<seq<Pb>>, specs: seq<Pb>)
    ensures TickBars(bars, frames + [specs]) == Advance(UpsertAll(TickBars(bars, frames), specs), KeysOf(specs))
    ensures TickOrder(order, bars, frames + [specs]) == OrderAll(TickOrder(order, bars, frames), TickBars(bars, frames), specs)
  {
    assert (frames + [specs])[..|frames|] == frames;
  }

  /** Frames keep the registry consistent, and rows already on display keep
      their places for the whole run. */
  lemma {:induction false} TickValid(bars: map<string, Bar>, order: seq<string>, frames: seq<seq<Pb>>)
    requires RegistryValid(bars.Keys, order)
    ensures RegistryValid(TickBars(bars, frames).Keys, TickOrder(order, bars, frames))
    ensures |TickOrder(order, bars, frames)| >= |order| && TickOrder(order, bars, frames)[..|order|] == order
    decreases |frames|
  {
    if frames != [] {
      var init := frames[..|frames| - 1];
      TickValid(bars, order, init);
      var o := TickOrder(order, bars, init);
      UpsertAllValid(TickBars(bars, init), o, frames[|frames| - 1]);
      assert TickOrder(order, bars, frames)[..|o|] == o;
      assert o[..|order|] == order;
    }
  }

  /** The rows of the frames the loop rendered in its first `n` ticks: a
      frame for each tick whose record was running. */
  function Rendered(info0: PrInfo, source: Source, clock: nat -> nat, n: nat): seq<seq<Pb>>
  {
    if n == 0 then []
    else
      var r := RecordAt(info0, source, clock, n - 1);
      Rendered(info0, source, clock, n - 1) + (if Running(r) then [RowSpecs(r.value)] else [])
  }

  /** How a run of the dashboard ends. `Aborted` stands for a panic of the
      source (a failed refresh poisons the shared record; a record without
      commits has no sha to show); `OutOfTicks` for a run still going when
      the tick bound is reached. */
  datatype RunOutcome = FetchFailed | Aborted(ticks: nat) | OutOfTicks | Done(ticks: nat, last: PrInfo)

  /** The record after `n` refresh rounds, or `None` once a refresh has
      failed. */
  function RecordAt(info0: PrInfo, source: Source, clock: nat -> nat, n: nat): Option<PrInfo>
  {
    if n == 0 then Some(info0)
    else match RecordAt(info0, source, clock, n - 1)
      case None => None
      case Some(info) => Refresh(info, clock(n), source)
  }

  lemma RecordAtNext(info0: PrInfo, source: Source, clock: nat -> nat, n: nat, info: PrInfo)
    requires RecordAt(info0, source, clock, n) == Some(info)
    ensures RecordAt(info0, source, clock, n + 1) == Refresh(info, clock(n + 1), source)
  {
  }

  /** One more frame rendered from a running record. */
  lemma RunningExtend(info0: PrInfo, source: Source, clock: nat -> nat, n: nat)
    requires forall t :: 0 <= t < n ==> Running(RecordAt(info0, source, clock, t))
    requires Running(RecordAt(info0, source, clock, n))
    ensures forall t :: 0 <= t < n + 1 ==> Running(RecordAt(info0, source, clock, t))
  {
  }

  /** The loop renders another frame from this record. */
  predicate Running(r: Option<PrInfo>)
  {
    r.Some? && !IsComplete(r.value) && r.value.commits != []
  }

  /** The run cannot go on: the record is lost or has no sha. */
  predicate Halted(r: Option<PrInfo>)
  {
    r.None? || r.value.commits == []
  }

  /** A failed refresh is permanent: once the record is lost it stays lost. */
  lemma {:induction false} RecordLostForever(info0: PrInfo, source: Source, clock: nat -> nat, n: nat, m: nat)
    requires n <= m
    requires RecordAt(info0, source, clock, n).None?
    ensures RecordAt(info0, source, clock, m).None?
    decreases m - n
  {
    if n < m {
      RecordLostForever(info0, source, clock, n, m - 1);
    }
  }

  /** Every record the loop holds carries a fetch stamp no later than the
      clock of its round, and stamps never go back. */
  lemma {:induction false} RecordStamps(info0: PrInfo, source: Source, clock: nat -> nat, n: nat)
    requires info0.stampedAt.Some?
    requires RecordAt(info0, source, clock, n + 1).Some?
    ensures RecordAt(info0, source, clock, n).Some?
    ensures RecordAt(info0, source, clock, n + 1).value.stampedAt.Some?
    ensures RecordAt(info0, source, clock, n).value.stampedAt.Some?
    ensures RecordAt(info0, source, clock, n).value.stampedAt.value
      <= RecordAt(info0, source, clock, n + 1).value.stampedAt.value
      <= clock(n + 1)
  {
  }

  /** A record with no checks is complete before any frame: the run ends at
      tick zero with the first record. */
  lemma EmptyRollupEndsAtOnce(info0: PrInfo, source: Source, clock: nat -> nat)
    requires info0.statusCheckRollup == []
    ensures !Running(RecordAt(info0, source, clock, 0))
  {
    EmptyRollupIsComplete(info0);
  }

  /** The header's `url` row and the details' `url` row are one bar: the
      later spec restyles it, so it shows the prefix style rather than the
      indented `> {msg}` style. */
  lemma UrlRowTakesDetailStyle(bars: map<string, Bar>, info: PrInfo)
    requires info.commits != []
    requires forall i :: 0 <= i < |info.statusCheckRollup| ==> info.statusCheckRollup[i].Name() != "url"
    ensures "url" in UpsertAll(bars, RowSpecs(info))
    ensures UpsertAll(bars, RowSpecs(info))["url"].template == PrefixTemplate
  {
    var hfd := HeaderRows(info) + FileRows(info.files) + DetailRows(info);
    var c := CheckRows(info.statusCheckRollup);
    CheckRowKeys(info.statusCheckRollup);
    KeyFilterEmpty(c, "url");
    var last := Pb.NewWithPkeyAndMessage("url", info.url);
    assert hfd[|hfd| - 1] == last;
    LastKeyedSpecWins(bars, hfd, c, "url");
  }

  /** The checks block up to check `i`, and the rows of the later checks,
      none of which shares check `i`'s name. */
  lemma CheckRowsSplit(checks: seq<StatusCheck>, i: nat)
    requires i < |checks|
    requires forall j :: i < j < |checks| ==> checks[j].Name() != checks[i].Name()
    ensures CheckRows(checks) == ([Pb.NewSection("checks")] + MapCheckRows(checks[..i + 1])) + MapCheckRows(checks[i + 1..])
    ensures MapCheckRows(checks[..i + 1])[i] == CheckRow(checks[i])
    ensures KeyFilter(MapCheckRows(checks[i + 1..]), checks[i].Name()) == []
  {
    var later := MapCheckRows(checks[i + 1..]);
    assert MapCheckRows(checks) == MapCheckRows(checks[..i + 1]) + later;
    assert forall k :: 0 <= k < |later| ==> later[k].key == checks[i + 1 + k].Name();
    KeyFilterEmpty(later, checks[i].Name());
  }

  /** A check row followed by rows that do not name the check leaves the
      check's bar with its spinner exactly while the check is incomplete. */
  lemma CheckBarAfter(bars: map<string, Bar>, upTo: seq<Pb>, later: seq<Pb>, c: StatusCheck)
    requires upTo != [] && upTo[|upTo| - 1] == CheckRow(c)
    requires KeyFilter(later, c.Name()) == []
    ensures c.Name() in UpsertAll(bars, upTo + later)
    ensures HasSpinner(UpsertAll(bars, upTo + later)[c.Name()].template) <==> !c.IsComplete()
    ensures UpsertAll(bars, upTo + later)[c.Name()].tickChars == DefaultTickChars
  {
    LastKeyedSpecWins(bars, upTo, later, c.Name());
    CheckTemplateSpinner(c.IsComplete());
  }

  /** A check's bar animates a spinner exactly while the check is incomplete,
      provided no later check of the frame shares its name (a later one would
      restyle the same bar). Its spinner frames are the default ones. */
  lemma CheckBarSpinner(bars: map<string, Bar>, info: PrInfo, i: nat)
    requires info.commits != []
    requires i < |info.statusCheckRollup|
    requires forall j :: i < j < |info.statusCheckRollup| ==>
      info.statusCheckRollup[j].Name() != info.statusCheckRollup[i].Name()
    ensures var c := info.statusCheckRollup[i];
      && c.Name() in UpsertAll(bars, RowSpecs(info))
      && (HasSpinner(UpsertAll(bars, RowSpecs(info))[c.Name()].template) <==> !c.IsComplete())
      && UpsertAll(bars, RowSpecs(info))[c.Name()].tickChars == DefaultTickChars
  {
    var checks := info.statusCheckRollup;
    CheckRowsSplit(checks, i);
    var upTo := HeaderRows(info) + FileRows(info.files) + DetailRows(info)
      + ([Pb.NewSection("checks")] + MapCheckRows(checks[..i + 1]));
    var later := MapCheckRows(checks[i + 1..]);
    assert RowSpecs(info) == upTo + later;
    CheckBarAfter(bars, upTo, later, checks[i]);
  }

  /** The detail keys name `state` twice. */
  lemma DetailKeysCountState()
    ensures Count(["details", "state", "author", "createdAt", "updatedAt", "state", "sha", "url"], "state") == 2
  {
    var dk: seq<string> := ["details", "state", "author", "createdAt", "updatedAt", "state", "sha", "url"];
    assert dk == ["details", "state", "author", "createdAt", "updatedAt"] + ["state", "sha", "url"];
    CountAppend(["details", "state", "author", "createdAt", "updatedAt"], ["state", "sha", "url"], "state");
    assert ["details", "state", "author", "createdAt", "updatedAt"] == ["details", "state"] + ["author", "createdAt", "updatedAt"];
    CountAppend(["details", "state"], ["author", "createdAt", "updatedAt"], "state");
  }

  lemma StateCountOfKeys(fk: seq<string>, ck: seq<string>)
    requires "state" !in fk && "state" !in ck
    ensures Count(["header", "url", "body", "_body"] + fk
      + ["details", "state", "author", "createdAt", "updatedAt", "state", "sha", "url"] + ck, "state") == 2
  {
    var head: seq<string> := ["header", "url", "body", "_body"];
    var dk: seq<string> := ["details", "state", "author", "createdAt", "updatedAt", "state", "sha", "url"];
    CountAppend(head, fk, "state");
    CountAppend(head + fk, dk, "state");
    CountAppend(head + fk + dk, ck, "state");
    DetailKeysCountState();
  }

  /** The `state` key is rendered twice per frame, so its bar advances two
      steps per tick while every other detail bar advances one. */
  lemma StateRowCountedTwice(info: PrInfo)
    requires info.commits != []
    requires forall i :: 0 <= i < |info.files| ==> info.files[i].path != "state"
    requires forall i :: 0 <= i < |info.statusCheckRollup| ==> info.statusCheckRollup[i].Name() != "state"
    ensures Count(KeysOf(RowSpecs(info)), "state") == 2
  {
    RowOrder(info);
    var fk: seq<string> := if info.files == [] then [] else ["files"] + Paths(info.files);
    var ck: seq<string> := if info.statusCheckRollup == [] then [] else ["checks"] + Names(info.statusCheckRollup);
    StateCountOfKeys(fk, ck);
  }

  /** Per frame the `state` bar advances two steps. */
  lemma StateBarAdvancesTwo(bars: map<string, Bar>, info: PrInfo)
    requires info.commits != []
    requires forall i :: 0 <= i < |info.files| ==> info.files[i].path != "state"
    requires forall i :: 0 <= i < |info.statusCheckRollup| ==> info.statusCheckRollup[i].Name() != "state"
    ensures "state" in UpsertAll(bars, RowSpecs(info))
    ensures Advance(UpsertAll(bars, RowSpecs(info)), KeysOf(RowSpecs(info)))["state"].position
      == UpsertAll(bars, RowSpecs(info))["state"].position + 2
  {
    var specs := RowSpecs(info);
    assert specs[|HeaderRows(info) + FileRows(info.files)| + 1].key == "state";
    UpsertAllHasKeys(bars, specs);
    StateRowCountedTwice(info);
    AdvanceAt(UpsertAll(bars, specs), KeysOf(specs), "state");
  }
}
