/** The loading-progress panel of `src/stores/loading.ts`: a global record
    holding a list of named steps, a derived percentage and a status line.
    The record is one `LoadingStore` object whose methods rewrite its fields;
    the steps are values in a list the methods replace entry by entry. */
module LoadingProgress {
  import opened Basics

  /** `LoadingStep["status"]`. */
  datatype Status = Pending | Loading | Completed | Error

  /** A step of the panel; `caption` is its `label` and `detail` the optional
      `detail?` field. */
  datatype LoadingStep = LoadingStep(id: string, caption: string, detail: Option<string>, status: Status)

  /** The panel's `progress` number, which is NaN after a step update on an
      empty step list (0 / 0). */
  datatype Number = Finite(value: real) | NaN

  /** JavaScript truthiness of an optional string argument: given and not empty. */
  predicate Given(s: Option<string>) {
    s.Some? && s.value != ""
  }

  /** The ids of the steps, in order. */
  function Ids(steps: seq<LoadingStep>): (r: seq<string>)
    ensures |r| == |steps| && forall k | 0 <= k < |steps| :: r[k] == steps[k].id
  {
    seq(|steps|, k requires 0 <= k < |steps| => steps[k].id)
  }

  /** `steps.find(s => s.id === stepId)`, as the position of the first match. */
  function FindStep(steps: seq<LoadingStep>, id: string): (r: Option<nat>)
    ensures r.Some? ==> r.value < |steps| && steps[r.value].id == id
    ensures r.Some? ==> forall k | 0 <= k < r.value :: steps[k].id != id
    ensures r.None? <==> forall k | 0 <= k < |steps| :: steps[k].id != id
  {
    if steps == [] then None
    else if steps[0].id == id then Some(0)
    else
      match FindStep(steps[1..], id)
      case None => None
      case Some(k) => Some(k + 1)
  }

  /** The lookup depends on the ids alone. */
  lemma {:induction false} FindStepByIds(s: seq<LoadingStep>, t: seq<LoadingStep>, id: string)
    requires Ids(s) == Ids(t)
    ensures FindStep(s, id) == FindStep(t, id)
  {
    if s != [] {
      assert s[0].id == Ids(s)[0] == Ids(t)[0] == t[0].id;
      assert Ids(s[1..]) == Ids(s)[1..] == Ids(t)[1..] == Ids(t[1..]);
      FindStepByIds(s[1..], t[1..], id);
    }
  }

  /** `steps.filter(s => s.status === "completed").length`. */
  function CompletedCount(steps: seq<LoadingStep>): (n: nat)
    ensures n <= |steps|
  {
    if steps == [] then 0 else (if steps[0].status == Completed then 1 else 0) + CompletedCount(steps[1..])
  }

  /** The number of steps that failed. */
  function ErrorCount(steps: seq<LoadingStep>): (n: nat)
    ensures n <= |steps|
  {
    if steps == [] then 0 else (if steps[0].status == Error then 1 else 0) + ErrorCount(steps[1..])
  }

  function Indicator(b: bool): nat {
    if b then 1 else 0
  }

  /** Rewriting one step changes the completed count by that step alone. */
  lemma {:induction false} CompletedCountReplace(steps: seq<LoadingStep>, i: nat, step: LoadingStep)
    requires i < |steps|
    ensures CompletedCount(steps[i := step]) + Indicator(steps[i].status == Completed)
         == CompletedCount(steps) + Indicator(step.status == Completed)
  {
    if i > 0 {
      assert steps[i := step][1..] == steps[1..][i - 1 := step];
      CompletedCountReplace(steps[1..], i - 1, step);
    }
  }

  // ---------------------------------------------------------------------------
  // Derived values
  // ---------------------------------------------------------------------------

  /** `Math.round((completed / total) * 100)`. */
  function OverallProgress(completed: nat, total: nat): (r: Number)
    requires completed <= total
    ensures r.NaN? <==> total == 0
    ensures r.Finite? ==> 0.0 <= r.value <= 100.0
    ensures r.Finite? ==>
      var x := completed as real * 100.0 / total as real;
      && r.value == r.value.Floor as real
      && x - 0.5 < r.value <= x + 0.5
    ensures total > 0 && completed == total ==> r == Finite(100.0)
    ensures total > 0 && completed == 0 ==> r == Finite(0.0)
  {
    if total == 0 then NaN
    else
      var x := completed as real / total as real * 100.0;
      assert 0.0 <= completed as real / total as real <= 1.0;
      assert 0.0 <= x <= 100.0;
      assert completed == total ==> x == 100.0 && Round(x) == 100;
      assert completed == 0 ==> x == 0.0 && Round(x) == 0;
      assert x == completed as real * 100.0 / total as real;
      Finite(Round(x) as real)
  }

  /** More completed steps never show a smaller percentage. */
  lemma ProgressMonotone(c1: nat, c2: nat, total: nat)
    requires c1 <= c2 <= total && total > 0
    ensures OverallProgress(c1, total).value <= OverallProgress(c2, total).value
  {
    var x1 := c1 as real / total as real * 100.0;
    var x2 := c2 as real / total as real * 100.0;
    assert c1 as real / total as real <= c2 as real / total as real;
    assert x1 <= x2;
    assert Floor(x1 + 0.5) <= Floor(x2 + 0.5);
  }

  /** `Math.min(100, Math.max(0, progress))`. */
  function Clamp(p: real): (r: real)
    ensures 0.0 <= r <= 100.0
    ensures 0.0 <= p <= 100.0 ==> r == p
    ensures p < 0.0 ==> r == 0.0
    ensures p > 100.0 ==> r == 100.0
  {
    MinReal(100.0, MaxReal(0.0, p))
  }

  /** `{ ...step, status: "pending" }` for every step. */
  function AsPending(steps: seq<LoadingStep>): (r: seq<LoadingStep>)
    ensures |r| == |steps|
    ensures forall k | 0 <= k < |r| :: r[k] == steps[k].(status := Pending)
  {
    seq(|steps|, k requires 0 <= k < |steps| => steps[k].(status := Pending))
  }

  /** A freshly started list keeps the ids in order and has nothing completed. */
  lemma {:induction false} AsPendingFacts(steps: seq<LoadingStep>)
    ensures Ids(AsPending(steps)) == Ids(steps)
    ensures CompletedCount(AsPending(steps)) == 0
  {
    if steps != [] {
      assert AsPending(steps)[1..] == AsPending(steps[1..]);
      AsPendingFacts(steps[1..]);
    }
  }

  /** The step after `updateLoadingStep` sets its status, and its detail when
      one is given. */
  function SetStep(step: LoadingStep, status: Status, detail: Option<string>): LoadingStep {
    step.(status := status, detail := if Given(detail) then detail else step.detail)
  }

  /** The steps after `updateLoadingStep(stepId, status, detail)`: only the
      first step with that id changes, and an unknown id changes nothing. */
  function Updated(steps: seq<LoadingStep>, id: string, status: Status, detail: Option<string>): (r: seq<LoadingStep>)
    ensures |r| == |steps| && Ids(r) == Ids(steps)
    ensures forall k | 0 <= k < |r| :: r[k].caption == steps[k].caption
    ensures FindStep(steps, id).None? ==> r == steps
    ensures forall k | 0 <= k < |r| && FindStep(steps, id) != Some(k) :: r[k] == steps[k]
    ensures FindStep(steps, id).Some? ==>
      var i := FindStep(steps, id).value;
      && r[i].status == status
      && r[i].detail == (if Given(detail) then detail else steps[i].detail)
  {
    match FindStep(steps, id)
    case None => steps
    case Some(i) => steps[i := SetStep(steps[i], status, detail)]
  }

  /** Completing a step that was not completed adds exactly one to the count;
      moving a completed step to another status takes one away. */
  lemma CompletedAfterUpdate(steps: seq<LoadingStep>, id: string, status: Status, detail: Option<string>)
    requires FindStep(steps, id).Some?
    ensures var old_ := steps[FindStep(steps, id).value].status;
      CompletedCount(Updated(steps, id, status, detail)) + Indicator(old_ == Completed)
      == CompletedCount(steps) + Indicator(status == Completed)
  {
    var i := FindStep(steps, id).value;
    CompletedCountReplace(steps, i, SetStep(steps[i], status, detail));
  }

  /** The step after `finishLoading`: pending and loading steps complete. */
  function Finish(step: LoadingStep): LoadingStep {
    if step.status == Loading || step.status == Pending then step.(status := Completed) else step
  }

  /** Every step after `finishLoading`: no step is left pending or loading,
      failed steps stay failed, every other step is completed, and ids,
      labels and details are kept. */
  function Finished(steps: seq<LoadingStep>): (r: seq<LoadingStep>)
    ensures |r| == |steps| && Ids(r) == Ids(steps)
    ensures forall k | 0 <= k < |r| ::
      && r[k].caption == steps[k].caption && r[k].detail == steps[k].detail
      && (steps[k].status == Error ==> r[k].status == Error)
      && (steps[k].status != Error ==> r[k].status == Completed)
  {
    seq(|steps|, k requires 0 <= k < |steps| => Finish(steps[k]))
  }

  /** After `finishLoading` the completed and failed steps add up to all steps. */
  lemma {:induction false} FinishedCount(steps: seq<LoadingStep>)
    ensures CompletedCount(Finished(steps)) + ErrorCount(steps) == |steps|
  {
    if steps != [] {
      assert Finished(steps)[1..] == Finished(steps[1..]);
      FinishedCount(steps[1..]);
    }
  }

  /** The status line after `updateLoadingStep` marks a step completed, given
      the completed count after the update. */
  function CompletedText(completed: nat, total: nat): string {
    if total - completed - 1 > 0 then IntToString(completed + 1) + " von " + IntToString(total) + " abgeschlossen"
    else "Wird abgeschlossen..."
  }

  /** `` `${step?.label}...` ``: an unknown step shows as "undefined". */
  function LoadingText(steps: seq<LoadingStep>, id: string): string {
    match FindStep(steps, id)
    case None => "undefined..."
    case Some(i) => steps[i].caption + "..."
  }

  /** The six steps of `startScooterLoading(scooterCount)`. */
  function ScooterLoadingSteps(scooterCount: int): (r: seq<LoadingStep>)
    ensures Ids(r) == ["init", "scooters", "validation", "rides", "routes", "finalize"]
    ensures forall k | 0 <= k < |r| :: r[k].status == Pending && r[k].detail.None?
  {
    [ LoadingStep("init", "Initialisierung", None, Pending),
      LoadingStep("scooters", IntToString(scooterCount) + " E-Scooter generieren", None, Pending),
      LoadingStep("validation", "Smart Positioning", None, Pending),
      LoadingStep("rides", "Aktive Fahrten erstellen", None, Pending),
      LoadingStep("routes", "Direkte Routen berechnen", None, Pending),
      LoadingStep("finalize", "Abschlie\U{221A}\U{FC}en", None, Pending) ]
  }

  /** The four steps of `startRouteCalculation`. */
  function RouteCalculationSteps(): (r: seq<LoadingStep>)
    ensures Ids(r) == ["request", "calculate", "optimize", "complete"]
    ensures forall k | 0 <= k < |r| :: r[k].status == Pending && r[k].detail.None?
  {
    [ LoadingStep("request", "Route anfordern", None, Pending),
      LoadingStep("calculate", "Route berechnen", None, Pending),
      LoadingStep("optimize", "Route optimieren", None, Pending),
      LoadingStep("complete", "Route fertigstellen", None, Pending) ]
  }

  // ---------------------------------------------------------------------------
  // The store
  // ---------------------------------------------------------------------------

  /** `loadingState.value`. */
  class LoadingStore {
    var isLoading: bool
    var currentTask: string
    var progress: Number
    var progressText: string
    var steps: seq<LoadingStep>
    var errorMessage: Option<string>

    /** The idle panel the module starts with. */
    constructor ()
      ensures !isLoading && currentTask == "" && progress == Finite(0.0) && progressText == ""
      ensures steps == [] && errorMessage.None?
    {
      isLoading := false;
      currentTask := "";
      progress := Finite(0.0);
      progressText := "";
      steps := [];
      errorMessage := None;
    }

    /** Opens the panel for `task` with every step pending. */
    method StartLoading(task: string, newSteps: seq<LoadingStep>)
      modifies this
      ensures isLoading && currentTask == task && progress == Finite(0.0)
      ensures progressText == "Wird gestartet..." && errorMessage.None?
      ensures steps == AsPending(newSteps)
      ensures Ids(steps) == Ids(newSteps) && CompletedCount(steps) == 0
    {
      isLoading := true;
      currentTask := task;
      progress := Finite(0.0);
      progressText := "Wird gestartet...";
      steps := AsPending(newSteps);
      errorMessage := None;
      AsPendingFacts(newSteps);
    }

    /** Sets the status (and a given detail) of the first step with `stepId`,
        recomputes the percentage from the completed steps and rewrites the
        status line for a loading or completed status. */
    method UpdateLoadingStep(stepId: string, status: Status, detail: Option<string>)
      modifies this
      ensures steps == Updated(old(steps), stepId, status, detail)
      ensures progress == OverallProgress(CompletedCount(steps), |steps|)
      ensures status == Loading ==> progressText == LoadingText(old(steps), stepId)
      ensures status == Completed ==> progressText == CompletedText(CompletedCount(steps), |steps|)
      ensures status == Pending || status == Error ==> progressText == old(progressText)
      ensures isLoading == old(isLoading) && currentTask == old(currentTask) && errorMessage == old(errorMessage)
    {
      var found := FindStep(steps, stepId);
      var caption := "undefined";
      if found.Some? {
        var i := found.value;
        caption := steps[i].caption;
        steps := steps[i := SetStep(steps[i], status, detail)];
      }
      var total := |steps|;
      var completed := CompletedCount(steps);
      progress := OverallProgress(completed, total);
      if status == Loading {
        progressText := caption + "...";
      } else if status == Completed {
        var remaining := total - completed - 1;
        if remaining > 0 {
          progressText := IntToString(completed + 1) + " von " + IntToString(total) + " abgeschlossen";
        } else {
          progressText := "Wird abgeschlossen...";
        }
      }
    }

    /** Sets the percentage, clamped to [0, 100], and a given status line. */
    method SetLoadingProgress(p: real, text: Option<string>)
      modifies this
      ensures progress == Finite(Clamp(p))
      ensures progressText == if Given(text) then text.value else old(progressText)
      ensures isLoading == old(isLoading) && currentTask == old(currentTask)
      ensures steps == old(steps) && errorMessage == old(errorMessage)
    {
      progress := Finite(MinReal(100.0, MaxReal(0.0, p)));
      if Given(text) {
        progressText := text.value;
      }
    }

    method SetLoadingError(error: string)
      modifies this
      ensures errorMessage == Some(error)
      ensures isLoading == old(isLoading) && currentTask == old(currentTask) && progress == old(progress)
      ensures progressText == old(progressText) && steps == old(steps)
    {
      errorMessage := Some(error);
    }

    /** Completes every pending or loading step, one by one, and shows 100 %.
        The panel stays open: it is hidden by `HidePanel` later. */
    method FinishLoading()
      modifies this
      ensures steps == Finished(old(steps))
      ensures CompletedCount(steps) + ErrorCount(old(steps)) == |steps|
      ensures progress == Finite(100.0) && progressText == "Abgeschlossen!"
      ensures isLoading == old(isLoading) && currentTask == old(currentTask) && errorMessage == old(errorMessage)
    {
      var i := 0;
      while i < |steps|
        invariant 0 <= i <= |steps| == |old(steps)|
        invariant forall k | 0 <= k < i :: steps[k] == Finish(old(steps)[k])
        invariant forall k | i <= k < |steps| :: steps[k] == old(steps)[k]
        invariant isLoading == old(isLoading) && currentTask == old(currentTask) && errorMessage == old(errorMessage)
      {
        if steps[i].status == Loading || steps[i].status == Pending {
          steps := steps[i := steps[i].(status := Completed)];
        }
        i := i + 1;
      }
      assert steps == Finished(old(steps));
      FinishedCount(old(steps));
      progress := Finite(100.0);
      progressText := "Abgeschlossen!";
    }

    /** The delayed callback `finishLoading` schedules. */
    method HidePanel()
      modifies this
      ensures !isLoading
      ensures currentTask == old(currentTask) && progress == old(progress) && progressText == old(progressText)
      ensures steps == old(steps) && errorMessage == old(errorMessage)
    {
      isLoading := false;
    }

    method CancelLoading()
      modifies this
      ensures !isLoading && errorMessage.None?
      ensures currentTask == old(currentTask) && progress == old(progress) && progressText == old(progressText)
      ensures steps == old(steps)
    {
      isLoading := false;
      errorMessage := None;
    }

    /** Opens the panel for loading `scooterCount` scooters in six steps. */
    method StartScooterLoading(scooterCount: int)
      modifies this
      ensures isLoading && currentTask == "E-Scooter Daten werden geladen" && progress == Finite(0.0)
      ensures Ids(steps) == ["init", "scooters", "validation", "rides", "routes", "finalize"]
      ensures forall k | 0 <= k < |steps| :: steps[k].status == Pending
      ensures errorMessage.None?
    {
      StartLoading("E-Scooter Daten werden geladen", ScooterLoadingSteps(scooterCount));
    }

    /** Opens the panel for a route calculation in four steps. */
    method StartRouteCalculation()
      modifies this
      ensures isLoading && currentTask == "Route wird berechnet" && progress == Finite(0.0)
      ensures Ids(steps) == ["request", "calculate", "optimize", "complete"]
      ensures forall k | 0 <= k < |steps| :: steps[k].status == Pending
      ensures errorMessage.None?
    {
      StartLoading("Route wird berechnet", RouteCalculationSteps());
    }
  }
}
