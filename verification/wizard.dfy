/** The three-step generator page: step navigation, the schema it stores
    when leaving the first step, and the generate, regenerate and export
    handlers. Toasts and rendering are left out; what each handler does to
    the page state, and what it hands to the exporter, is modelled. */
module Wizard {
  import opened Basics
  import opened Text
  import opened JsObject
  import opened Schema
  import opened Generation
  import opened CsvExport
  import Stepper

  /** The step titles; only their number matters here. */
  const Steps: seq<string> := ["Define Schema", "Configure", "Generate"]

  /** The index of the last step. */
  const LastStep := |Steps| - 1

  /** The page state. */
  datatype Page = Page(step: int, loading: bool, generated: Option<seq<Record>>, columns: seq<Column>)

  /** The page as it first renders. */
  const InitialPage := Page(0, false, None, [])

  /** The six-column schema the page stores when leaving the first step
      (the schema editor is never read). */
  function Fallback(): seq<Column> {
    [ Column("id", "number", Some(ColumnOptions(Some(1.0), Some(10000.0), None, None))),
      Column("full_name", "string", None),
      Column("age", "number", Some(ColumnOptions(Some(18.0), Some(80.0), None, None))),
      Column("income", "number", Some(ColumnOptions(Some(20000.0), Some(150000.0), Some(2), None))),
      Column("is_customer", "boolean", None),
      Column("signup_date", "date", None) ]
  }

  /** The configuration both the generate button and regenerate use. */
  const DefaultConfig := GenerationConfig(1000, "ctgan", 50, true)

  // ---------------------------------------------------------------------
  // Navigation

  /** `handleNext`: leaving the first step stores the fallback schema; the
      step advances by one but never past the last. */
  function HandleNext(p: Page): (q: Page)
    ensures q.step == Min(p.step + 1, LastStep)
    ensures q.columns == if p.step == 0 then Fallback() else p.columns
    ensures q.loading == p.loading && q.generated == p.generated
  {
    var stored := if p.step == 0 then Fallback() else p.columns;
    p.(step := Min(p.step + 1, LastStep), columns := stored)
  }

  /** `handlePrevious`: back by one, never below the first step. */
  function HandlePrevious(p: Page): (q: Page)
    ensures q.step == Max(p.step - 1, 0)
    ensures q == p.(step := q.step)
  {
    p.(step := Max(p.step - 1, 0))
  }

  /** `handleStepClick(k)`: a jump back to, or onto, the current step is
      taken; a jump ahead is ignored. */
  function HandleStepClick(p: Page, k: int): (q: Page)
    ensures k <= p.step ==> q == p.(step := k)
    ensures k > p.step ==> q == p
  {
    if k <= p.step then p.(step := k) else p
  }

  /** A jump never moves forward, so the step only advances through `Next`. */
  lemma StepClickNeverAdvances(p: Page, k: int)
    ensures HandleStepClick(p, k).step <= p.step
  {
  }

  /** Back then forward from a middle step returns to it. */
  lemma PreviousThenNext(p: Page)
    requires 1 <= p.step <= LastStep
    ensures HandleNext(HandlePrevious(p)).step == p.step
  {
  }

  // ---------------------------------------------------------------------
  // Generation

  /** The schema a generate click uses: the stored columns when there are
      any, the fallback otherwise. */
  function GenerationColumns(p: Page): (cols: seq<Column>)
    ensures |p.columns| > 0 ==> cols == p.columns
    ensures |p.columns| == 0 ==> cols == Fallback()
    ensures |cols| > 0
  {
    if |p.columns| > 0 then p.columns else Fallback()
  }

  /** The page once a generation call has run its course: settled data
      replaces the previous batch and clears the spinner; a promise that
      never settles leaves the spinner on and the old data in place. */
  function AfterGeneration(p: Page, g: Generated): (q: Page)
    ensures q.step == p.step && q.columns == p.columns
    ensures g.Resolved? ==> !q.loading && q.generated == Some(g.data)
    ensures g.NeverSettles? ==> q.loading && q.generated == p.generated
  {
    match g
    case Resolved(data) => p.(loading := false, generated := Some(data))
    case NeverSettles => p.(loading := true)
  }

  /** `handleGenerateData(config)`: a batch from the generation schema
      that settles becomes the page's data and clears the spinner; one
      that never settles leaves the spinner on and the old data shown.
      Step and stored schema never change. */
  function HandleGenerateData(p: Page, config: GenerationConfig, env: Env): (q: Page)
    ensures var g := GenerateSyntheticData(GenerationColumns(p), config, env);
      && (g.Resolved? ==> !q.loading && q.generated == Some(g.data))
      && (g.NeverSettles? ==> q.loading && q.generated == p.generated)
    ensures q.step == p.step && q.columns == p.columns
  {
    AfterGeneration(p, GenerateSyntheticData(GenerationColumns(p), config, env))
  }

  /** `handleRegenerate`: nothing at all without stored columns; otherwise
      exactly what the generate button does, a batch of 1000 records. */
  function HandleRegenerate(p: Page, env: Env): (q: Page)
    ensures |p.columns| == 0 ==> q == p
    ensures |p.columns| > 0 ==> q == HandleGenerateData(p, DefaultConfig, env)
  {
    if |p.columns| > 0 then AfterGeneration(p, GenerateSyntheticData(p.columns, DefaultConfig, env)) else p
  }

  // ---------------------------------------------------------------------
  // Export

  /** What an export click does: the download it starts, if any, and
      whether it announces success. */
  datatype ExportOutcome = ExportOutcome(download: Option<Download>, announced: bool)

  /** `handleExportCsv`: nothing without data; with data, even an empty
      batch, the success message is shown, and the encoder decides
      whether a file is produced. */
  function HandleExportCsv(p: Page, show: NumberText, nowMs: nat): (o: ExportOutcome)
    ensures p.generated.None? ==> o == ExportOutcome(None, false)
    ensures p.generated.Some? ==> o.announced
    ensures o.download.Some? <==> p.generated.Some? && |p.generated.value| > 0
    ensures o.download.Some? ==> o.download == ExportAsCsv(p.generated.value, show, nowMs)
  {
    match p.generated
    case None => ExportOutcome(None, false)
    case Some(data) => ExportOutcome(ExportAsCsv(data, show, nowMs), true)
  }

  /** `handleExportJson`: whether the JSON exporter is called at all. */
  function HandleExportJson(p: Page): (invoked: bool)
    ensures invoked <==> p.generated.Some?
  {
    p.generated.Some?
  }

  // ---------------------------------------------------------------------
  // Sessions

  /** One user action on the page. */
  datatype Action =
    | Next
    | Previous
    | Click(k: int)
    | Generate(config: GenerationConfig, env: Env)
    | Regenerate(env: Env)
    | ExportCsv
    | ExportJson

  function Act(p: Page, a: Action): Page {
    match a
    case Next => HandleNext(p)
    case Previous => HandlePrevious(p)
    case Click(k) => HandleStepClick(p, k)
    case Generate(config, env) => HandleGenerateData(p, config, env)
    case Regenerate(env) => HandleRegenerate(p, env)
    case ExportCsv => p
    case ExportJson => p
  }

  function Run(p: Page, actions: seq<Action>): Page
    decreases |actions|
  {
    if |actions| == 0 then p else Run(Act(p, actions[0]), actions[1..])
  }

  /** Step indices the stepper can report. */
  predicate ClicksInRange(actions: seq<Action>) {
    forall i | 0 <= i < |actions| && actions[i].Click? :: actions[i].k >= 0
  }

  /** What holds on every reachable page: the step is a real step, and the
      stored schema is empty or the fallback, so every generation runs on
      the fallback schema. */
  predicate Reachable(p: Page) {
    && 0 <= p.step <= LastStep
    && (p.columns == [] || p.columns == Fallback())
  }

  lemma ActKeepsReachable(p: Page, a: Action)
    requires Reachable(p)
    requires a.Click? ==> a.k >= 0
    ensures Reachable(Act(p, a))
  {
  }

  /** From the first render, any clicks through the page keep the step in
      range and the schema at empty or the fallback. */
  lemma {:induction false} RunKeepsReachable(p: Page, actions: seq<Action>)
    requires Reachable(p) && ClicksInRange(actions)
    ensures Reachable(Run(p, actions))
    decreases |actions|
  {
    if |actions| > 0 {
      ActKeepsReachable(p, actions[0]);
      assert ClicksInRange(actions[1..]) by {
        forall i | 0 <= i < |actions[1..]| && actions[1..][i].Click? ensures actions[1..][i].k >= 0 {
          assert actions[1..][i] == actions[i + 1];
        }
      }
      RunKeepsReachable(Act(p, actions[0]), actions[1..]);
    }
  }

  lemma InitialPageReachable()
    ensures Reachable(InitialPage)
  {
  }

  /** On a reachable page, generation always uses the fallback schema. */
  lemma ReachableGeneratesFallback(p: Page)
    requires Reachable(p)
    ensures GenerationColumns(p) == Fallback()
  {
  }

  // ---------------------------------------------------------------------
  // The fallback schema

  lemma FallbackNamesUnique()
    ensures Names(Fallback()) == ["id", "full_name", "age", "income", "is_customer", "signup_date"]
    ensures Unique(Names(Fallback()))
  {
    var ns := Names(Fallback());
    assert ns == ["id", "full_name", "age", "income", "is_customer", "signup_date"];
    forall i, j | 0 <= i < j < |ns| ensures ns[i] != ns[j] {
      assert |ns[i]| != |ns[j]| || ns[i][0] != ns[j][0];
    }
  }

  lemma FallbackNamesAreNotIndices()
    ensures forall i | 0 <= i < |Names(Fallback())| :: !IsArrayIndex(Names(Fallback())[i])
  {
    var ns := Names(Fallback());
    FallbackNamesUnique();
    forall i | 0 <= i < |ns| ensures !IsArrayIndex(ns[i]) {
      assert !IsDigit(ns[i][|ns[i]| - 1]);
    }
  }

  lemma FallbackNeverThrows()
    ensures forall j | 0 <= j < |Fallback()| :: !Throws(Fallback()[j])
  {
    var f := Fallback();
    assert NumberSettingsOf(f[0]).decimals == 0;
    assert NumberSettingsOf(f[2]).decimals == 0;
    assert NumberSettingsOf(f[3]).decimals == 2;
  }

  /** Generating from the fallback schema always settles, with the
      requested number of records, each keyed by the six names in schema
      order. */
  lemma FallbackGenerates(config: GenerationConfig, env: Env)
    ensures var g := GenerateSyntheticData(Fallback(), config, env);
      && g.Resolved?
      && |g.data| == RecordCountOf(config)
      && forall i | 0 <= i < |g.data| :: Keys(g.data[i]) == Names(Fallback())
  {
    FallbackNeverThrows();
    FallbackNamesUnique();
    DistinctOfUnique(Names(Fallback()));
    FallbackNamesAreNotIndices();
    KeysWithoutIndices(Names(Fallback()));
    var g := GenerateSyntheticData(Fallback(), config, env);
    forall i | 0 <= i < |g.data| ensures Keys(g.data[i]) == Names(Fallback()) {
      KeysAgreeAcrossRecords(Fallback(), config, env, i);
    }
  }

  /** So on a reachable page a generate click always clears the spinner
      and stores a full batch. */
  lemma ReachableGenerationSettles(p: Page, config: GenerationConfig, env: Env)
    requires Reachable(p)
    ensures var q := HandleGenerateData(p, config, env);
      && !q.loading && q.generated.Some? && |q.generated.value| == RecordCountOf(config)
  {
    FallbackGenerates(config, env);
  }

  /** The page hands its step and click handler to the indicator: a click
      on step i reports i, and the page takes it exactly when step i is not
      upcoming; a click on an upcoming step changes nothing. */
  lemma IndicatorClicks(p: Page, i: nat)
    requires Reachable(p) && i < |Steps|
    ensures var v := Stepper.ViewStep(i, p.step, true);
      && v.enabled && v.click == Some(i)
      && (HandleStepClick(p, v.click.value).step == i <==> Stepper.StatusOf(v) != Stepper.Upcoming)
      && (Stepper.StatusOf(v) == Stepper.Upcoming ==> HandleStepClick(p, v.click.value) == p)
  {
  }
}
