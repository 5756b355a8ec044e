/** The progress-bar registry of `App::pb` in `src/cli.rs`, as functions on
    its state: the bars by key (`HashMap<String, ProgressBar>`) and their
    display order (the order in which `MultiProgress::add` received them).
    A `ProgressBar` is a shared handle, so the bar a caller holds is the bar
    stored under its key. */
module CliRegistry {
  import opened Strings
  import opened CliRows

  /** The style of a row with a prefix and no template of its own. */
  const PrefixTemplate := "{prefix:10.white} --> {wide_msg}"
  /** The style of a row with neither a template nor a prefix. */
  const WideMsgTemplate := "{wide_msg}"
  /** The braille spinner frames used when a row names none. */
  const DefaultTickChars := "\U{28FE}\U{28FD}\U{28FB}\U{28BF}\U{287F}\U{28DF}\U{28EF}\U{28F7}"
  /** The length every bar is created with (`ProgressBar::new(100)`). */
  const BarLength: nat := 100

  /** The observable state of one progress bar. `template` is `""` until a
      style is set; `position` counts `inc` calls. */
  datatype Bar = Bar(message: string, prefix: string, template: string, tickChars: string,
                     length: nat, position: nat, finished: bool)

  function NewBar(): Bar
  {
    Bar("", "", "", "", BarLength, 0, false)
  }

  /** The template `App::pb` picks before indenting. */
  function BaseTemplate(spec: Pb): string
  {
    if spec.template != "" then spec.template
    else if spec.prefix != "" then PrefixTemplate
    else WideMsgTemplate
  }

  /** The template `App::pb` installs: the base template behind `indent` spaces. */
  function TemplateFor(spec: Pb): string
  {
    var t := BaseTemplate(spec);
    if spec.indent > 0 then Repeat(' ', spec.indent) + t else t
  }

  function TickCharsFor(spec: Pb): string
  {
    if spec.tickChars == "" then DefaultTickChars else spec.tickChars
  }

  /** The template is chosen in a fixed order: the row's own template, else
      the prefix style when the row has a prefix, else `{wide_msg}`; then
      `indent > 0` puts exactly `indent` spaces before it. The row's own
      spinner frames are used, else the default ones. */
  lemma TemplateIndent(spec: Pb)
    ensures |TemplateFor(spec)| == spec.indent + |BaseTemplate(spec)|
    ensures forall i :: 0 <= i < spec.indent ==> TemplateFor(spec)[i] == ' '
    ensures TemplateFor(spec)[spec.indent..] == BaseTemplate(spec)
    ensures spec.template != "" ==> BaseTemplate(spec) == spec.template
    ensures spec.template == "" && spec.prefix != "" ==> BaseTemplate(spec) == PrefixTemplate
    ensures spec.template == "" && spec.prefix == "" ==> BaseTemplate(spec) == WideMsgTemplate
    ensures TickCharsFor(spec) == (if spec.tickChars == "" then DefaultTickChars else spec.tickChars)
    ensures TickCharsFor(spec) != ""
  {
    if spec.indent > 0 {
      assert (Repeat(' ', spec.indent) + BaseTemplate(spec))[spec.indent..] == BaseTemplate(spec);
    }
  }

  /** What one call of `App::pb` does to a bar, independent of the bar. */
  datatype Effect = Effect(message: string, prefix: string, template: string, tickChars: string)

  function EffectOf(spec: Pb): Effect
  {
    Effect(spec.message, spec.prefix, TemplateFor(spec), TickCharsFor(spec))
  }

  /** An empty message or prefix leaves the bar's own; the style is always
      replaced; progress is never touched. */
  function ApplyEffect(b: Bar, e: Effect): (r: Bar)
    ensures r.length == b.length && r.position == b.position && r.finished == b.finished
    ensures r.message == (if e.message == "" then b.message else e.message)
    ensures r.prefix == (if e.prefix == "" then b.prefix else e.prefix)
    ensures r.template == e.template && r.tickChars == e.tickChars
  {
    b.(message := if e.message != "" then e.message else b.message,
       prefix := if e.prefix != "" then e.prefix else b.prefix,
       template := e.template,
       tickChars := e.tickChars)
  }

  /** `e1`, then `e2`, as one effect. */
  function Then(e1: Effect, e2: Effect): Effect
  {
    Effect(if e2.message != "" then e2.message else e1.message,
           if e2.prefix != "" then e2.prefix else e1.prefix,
           e2.template,
           e2.tickChars)
  }

  lemma ApplyThen(b: Bar, e1: Effect, e2: Effect)
    ensures ApplyEffect(ApplyEffect(b, e1), e2) == ApplyEffect(b, Then(e1, e2))
  {
  }

  lemma ApplyEffectIdempotent(b: Bar, e: Effect)
    ensures ApplyEffect(ApplyEffect(b, e), e) == ApplyEffect(b, e)
  {
  }

  /** `App::pb`'s changes to the bar stored under `spec.key`. */
  function Apply(b: Bar, spec: Pb): Bar
  {
    ApplyEffect(b, EffectOf(spec))
  }

  /** The bar under `key`, or the fresh bar `App::pb` would insert. */
  function Base(bars: map<string, Bar>, key: string): Bar
  {
    if key in bars then bars[key] else NewBar()
  }

  /** `App::pb` on the map: insert when absent, then apply the spec. */
  function Upsert(bars: map<string, Bar>, spec: Pb): map<string, Bar>
  {
    bars[spec.key := Apply(Base(bars, spec.key), spec)]
  }

  /** `App::pb` on the display order: a new key is added at the end. */
  function OrderAfter(order: seq<string>, bars: map<string, Bar>, key: string): seq<string>
  {
    if key in bars then order else order + [key]
  }

  /** `App::pb` applied to each spec in turn. */
  function UpsertAll(bars: map<string, Bar>, specs: seq<Pb>): map<string, Bar>
  {
    if specs == [] then bars else Upsert(UpsertAll(bars, specs[..|specs| - 1]), specs[|specs| - 1])
  }

  function OrderAll(order: seq<string>, bars: map<string, Bar>, specs: seq<Pb>): seq<string>
  {
    if specs == [] then order
    else
      var init := specs[..|specs| - 1];
      OrderAfter(OrderAll(order, bars, init), UpsertAll(bars, init), specs[|specs| - 1].key)
  }

  /** One more `App::pb` call extends the run by one spec. */
  lemma RenderStep(order: seq<string>, bars: map<string, Bar>, specs: seq<Pb>, i: nat)
    requires i < |specs|
    ensures UpsertAll(bars, specs[..i + 1]) == Upsert(UpsertAll(bars, specs[..i]), specs[i])
    ensures OrderAll(order, bars, specs[..i + 1])
      == OrderAfter(OrderAll(order, bars, specs[..i]), UpsertAll(bars, specs[..i]), specs[i].key)
    ensures KeysOf(specs[..i + 1]) == KeysOf(specs[..i]) + [specs[i].key]
  {
    assert specs[..i + 1][..i] == specs[..i];
  }

  /** Every key a spec names is registered afterwards. */
  lemma {:induction false} UpsertAllHasKeys(bars: map<string, Bar>, specs: seq<Pb>)
    ensures forall i :: 0 <= i < |specs| ==> specs[i].key in UpsertAll(bars, specs)
    decreases |specs|
  {
    if specs != [] {
      var init := specs[..|specs| - 1];
      UpsertAllHasKeys(bars, init);
      assert forall i :: 0 <= i < |init| ==> specs[i] == init[i];
    }
  }

  /** The specs addressed to `key`, in order. */
  function KeyFilter(specs: seq<Pb>, key: string): (r: seq<Pb>)
    ensures |r| <= |specs|
    ensures forall i :: 0 <= i < |r| ==> r[i].key == key
  {
    if specs == [] then []
    else
      var init := KeyFilter(specs[..|specs| - 1], key);
      if specs[|specs| - 1].key == key then init + [specs[|specs| - 1]] else init
  }

  lemma {:induction false} KeyFilterEmpty(specs: seq<Pb>, key: string)
    ensures KeyFilter(specs, key) == [] <==> key !in KeysOf(specs)
  {
    if specs != [] {
      var init := specs[..|specs| - 1];
      KeyFilterEmpty(init, key);
      assert KeysOf(specs) == KeysOf(init) + [specs[|specs| - 1].key];
    }
  }

  lemma {:induction false} KeyFilterAppend(a: seq<Pb>, b: seq<Pb>, key: string)
    ensures KeyFilter(a + b, key) == KeyFilter(a, key) + KeyFilter(b, key)
    decreases |b|
  {
    if b == [] {
      assert a + b == a;
    } else {
      var binit := b[..|b| - 1];
      assert (a + b)[..|a + b| - 1] == a + binit;
      KeyFilterAppend(a, binit, key);
    }
  }

  /** Applying the specs addressed to one bar, in order. */
  function BarFold(b: Bar, specs: seq<Pb>): (r: Bar)
    ensures r.length == b.length && r.position == b.position && r.finished == b.finished
  {
    if specs == [] then b else Apply(BarFold(b, specs[..|specs| - 1]), specs[|specs| - 1])
  }

  /** The combined effect of a non-empty run of specs. */
  function Summary(specs: seq<Pb>): Effect
    requires specs != []
  {
    if |specs| == 1 then EffectOf(specs[0])
    else Then(Summary(specs[..|specs| - 1]), EffectOf(specs[|specs| - 1]))
  }

  lemma {:induction false} BarFoldSummary(b: Bar, specs: seq<Pb>)
    requires specs != []
    ensures BarFold(b, specs) == ApplyEffect(b, Summary(specs))
    decreases |specs|
  {
    var init := specs[..|specs| - 1];
    if |specs| == 1 {
      assert init == [];
    } else {
      BarFoldSummary(b, init);
      ApplyThen(b, Summary(init), EffectOf(specs[|specs| - 1]));
    }
  }

  /** The last spec addressed to a bar decides its style. */
  lemma BarFoldLastStyle(b: Bar, specs: seq<Pb>)
    requires specs != []
    ensures BarFold(b, specs).template == TemplateFor(specs[|specs| - 1])
    ensures BarFold(b, specs).tickChars == TickCharsFor(specs[|specs| - 1])
  {
  }

  /** Re-applying the same specs to a bar changes nothing. */
  lemma {:induction false} BarFoldIdempotent(b: Bar, specs: seq<Pb>)
    ensures BarFold(BarFold(b, specs), specs) == BarFold(b, specs)
  {
    if specs != [] {
      BarFoldSummary(b, specs);
      BarFoldSummary(BarFold(b, specs), specs);
      ApplyEffectIdempotent(b, Summary(specs));
    }
  }

  /** Per key, a sequence of `App::pb` calls inserts the bar when some spec
      names it and then applies exactly the specs that name it, in order. */
  lemma {:induction false} UpsertAllAt(bars: map<string, Bar>, specs: seq<Pb>, key: string)
    ensures key in UpsertAll(bars, specs) <==> key in bars || KeyFilter(specs, key) != []
    ensures key in UpsertAll(bars, specs) ==>
      UpsertAll(bars, specs)[key] == BarFold(Base(bars, key), KeyFilter(specs, key))
    decreases |specs|
  {
    if specs != [] {
      UpsertAllAt(bars, specs[..|specs| - 1], key);
    }
  }

  /** Every key a spec names is registered afterwards. */
  lemma {:induction false} UpsertAllRegisters(bars: map<string, Bar>, specs: seq<Pb>)
    ensures UpsertAll(bars, specs).Keys == bars.Keys + set i | 0 <= i < |specs| :: specs[i].key
  {
    forall key
      ensures key in UpsertAll(bars, specs) <==> key in bars || key in KeysOf(specs)
    {
      UpsertAllAt(bars, specs, key);
      KeyFilterEmpty(specs, key);
    }
    assert forall key :: key in KeysOf(specs) <==> key in set i | 0 <= i < |specs| :: specs[i].key;
  }

  /** The registry is consistent: the display order lists each registered
      key exactly once. */
  predicate RegistryValid(keys: set<string>, order: seq<string>)
  {
    && (forall k :: k in keys ==> k in order)
    && (forall i :: 0 <= i < |order| ==> order[i] in keys)
    && (forall i, j :: 0 <= i < j < |order| ==> order[i] != order[j])
  }

  /** `App::pb` keeps the registry consistent and never moves a row. */
  lemma UpsertValid(bars: map<string, Bar>, order: seq<string>, spec: Pb)
    requires RegistryValid(bars.Keys, order)
    ensures RegistryValid(Upsert(bars, spec).Keys, OrderAfter(order, bars, spec.key))
    ensures OrderAfter(order, bars, spec.key)[..|order|] == order
  {
  }

  lemma {:induction false} UpsertAllValid(bars: map<string, Bar>, order: seq<string>, specs: seq<Pb>)
    requires RegistryValid(bars.Keys, order)
    ensures RegistryValid(UpsertAll(bars, specs).Keys, OrderAll(order, bars, specs))
    ensures |OrderAll(order, bars, specs)| >= |order| && OrderAll(order, bars, specs)[..|order|] == order
    decreases |specs|
  {
    if specs != [] {
      var init := specs[..|specs| - 1];
      UpsertAllValid(bars, order, init);
      UpsertValid(UpsertAll(bars, init), OrderAll(order, bars, init), specs[|specs| - 1]);
    }
  }

  /** Specs whose keys are all registered add no row. */
  lemma {:induction false} OrderAllKnown(order: seq<string>, bars: map<string, Bar>, specs: seq<Pb>)
    requires forall i :: 0 <= i < |specs| ==> specs[i].key in bars
    ensures OrderAll(order, bars, specs) == order
    decreases |specs|
  {
    if specs != [] {
      var init := specs[..|specs| - 1];
      OrderAllKnown(order, bars, init);
      UpsertAllRegisters(bars, init);
    }
  }

  /** Rendering the same rows a second time changes no bar and adds no row:
      while the record is unchanged every frame shows the same dashboard. */
  lemma RenderIdempotent(bars: map<string, Bar>, order: seq<string>, specs: seq<Pb>)
    ensures UpsertAll(UpsertAll(bars, specs), specs) == UpsertAll(bars, specs)
    ensures OrderAll(OrderAll(order, bars, specs), UpsertAll(bars, specs), specs) == OrderAll(order, bars, specs)
  {
    var once := UpsertAll(bars, specs);
    var twice := UpsertAll(once, specs);
    UpsertAllRegisters(bars, specs);
    UpsertAllRegisters(once, specs);
    forall key | key in twice
      ensures twice[key] == once[key]
    {
      UpsertAllAt(once, specs, key);
      UpsertAllAt(bars, specs, key);
      BarFoldIdempotent(Base(bars, key), KeyFilter(specs, key));
    }
    OrderAllKnown(OrderAll(order, bars, specs), once, specs);
  }

  /** Specs that do not name a key leave the specs addressed to it as they
      were, so the last spec naming it still decides its style. */
  lemma LastKeyedSpecWins(bars: map<string, Bar>, specs: seq<Pb>, more: seq<Pb>, key: string)
    requires specs != [] && specs[|specs| - 1].key == key
    requires KeyFilter(more, key) == []
    ensures key in UpsertAll(bars, specs + more)
    ensures UpsertAll(bars, specs + more)[key].template == TemplateFor(specs[|specs| - 1])
    ensures UpsertAll(bars, specs + more)[key].tickChars == TickCharsFor(specs[|specs| - 1])
  {
    KeyFilterAppend(specs, more, key);
    assert specs + more == (specs + more)[..|specs|] + more;
    var kf := KeyFilter(specs, key);
    assert kf == KeyFilter(specs[..|specs| - 1], key) + [specs[|specs| - 1]];
    LastSpecWins(bars, specs + more, key);
  }

  /** When several specs share a key, the last one decides the bar's style. */
  lemma LastSpecWins(bars: map<string, Bar>, specs: seq<Pb>, key: string)
    requires KeyFilter(specs, key) != []
    ensures key in UpsertAll(bars, specs)
    ensures UpsertAll(bars, specs)[key].template == TemplateFor(KeyFilter(specs, key)[|KeyFilter(specs, key)| - 1])
    ensures UpsertAll(bars, specs)[key].tickChars == TickCharsFor(KeyFilter(specs, key)[|KeyFilter(specs, key)| - 1])
  {
    UpsertAllAt(bars, specs, key);
    BarFoldLastStyle(Base(bars, key), KeyFilter(specs, key));
  }
}
