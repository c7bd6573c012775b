/**
 * The stage dispatcher of steps/stage-loader.js: which stage is current at
 * startup, and which module load (or warning) each event requests.
 *
 * `data-step` is read through `dataset.step`, which is `undefined` on a
 * button without that attribute; a stage value is therefore an
 * `Option<string>`, `None` standing for `undefined`.
 */
module StageLoader {
  import opened Wrappers

  /** A `.progress-step` button: its `data-step` and whether it has the `active` class. */
  datatype StageButton = StageButton(step: Option<string>, active: bool)

  /** What `loadStage` does: a dynamic `import()` of a module, or a console warning. */
  datatype LoadRequest = LoadModule(path: string) | Warning(message: string)

  /** The stage used when no button is active. */
  const DefaultStage := "Import"

  /** The six stage names `loadStage` knows. */
  const KnownStages: set<string> := {"Import", "Edit", "Music", "Final Checks", "Export", "Upload"}

  /** The `switch` of `loadStage`: the module a stage name loads, if it is one of the six. */
  function ModulePath(stage: string): Option<string> {
    match stage
    case "Import" => Some("./steps/import.js")
    case "Edit" => Some("./steps/edit.js")
    case "Music" => Some("./steps/music.js")
    case "Final Checks" => Some("./steps/final.js")
    case "Export" => Some("./steps/export.js")
    case "Upload" => Some("./steps/upload.js")
    case _ => None
  }

  /** How a template literal prints a stage value. */
  function StageText(stage: Option<string>): string {
    if stage.Some? then stage.value else "undefined"
  }

  /** `loadStage(stage)`. A `switch` compares with `===`, so `undefined` matches no case. */
  function LoadStage(stage: Option<string>): (r: LoadRequest)
    ensures r.LoadModule? <==> stage.Some? && stage.value in KnownStages
    ensures r.Warning? ==> r.message == "Unknown stage: " + StageText(stage)
  {
    if stage.Some? && ModulePath(stage.value).Some? then
      LoadModule(ModulePath(stage.value).value)
    else
      Warning("Unknown stage: " + StageText(stage))
  }

  /** The index of the first active button, if any: `querySelector(".progress-step.active")`. */
  function FirstActive(buttons: seq<StageButton>): (r: Option<nat>)
    ensures r.None? <==> forall i :: 0 <= i < |buttons| ==> !buttons[i].active
    ensures r.Some? ==>
      && r.value < |buttons| && buttons[r.value].active
      && forall i :: 0 <= i < r.value ==> !buttons[i].active
  {
    if buttons == [] then None
    else if buttons[0].active then Some(0)
    else
      match FirstActive(buttons[1..])
      case None => None
      case Some(i) => Some(i + 1)
  }

  /** `getCurrentStage()`: the `data-step` of the first active button, or `"Import"`. */
  function CurrentStage(buttons: seq<StageButton>): Option<string> {
    match FirstActive(buttons)
    case None => Some(DefaultStage)
    case Some(i) => buttons[i].step
  }

  /** The loads the stage buttons' click listeners request, one per click, in click order. */
  function ClickLoads(buttons: seq<StageButton>, clicks: seq<nat>): (r: seq<LoadRequest>)
    requires forall k :: 0 <= k < |clicks| ==> clicks[k] < |buttons|
    ensures |r| == |clicks|
    ensures forall k :: 0 <= k < |clicks| ==> r[k] == LoadStage(buttons[clicks[k]].step)
  {
    if clicks == [] then []
    else
      var later := clicks[1..];
      assert forall k :: 0 <= k < |later| ==> later[k] == clicks[k + 1];
      [LoadStage(buttons[clicks[0]].step)] + ClickLoads(buttons, later)
  }

  /**
   * The loads requested after `DOMContentLoaded` when the buttons at the
   * indices `clicks` are then clicked in that order: one for the current
   * stage, then one per click for that button's own `data-step`.
   */
  function Requests(buttons: seq<StageButton>, clicks: seq<nat>): (r: seq<LoadRequest>)
    requires forall k :: 0 <= k < |clicks| ==> clicks[k] < |buttons|
    ensures |r| == 1 + |clicks|
    ensures r[0] == LoadStage(CurrentStage(buttons))
    ensures forall k :: 0 <= k < |clicks| ==> r[k + 1] == LoadStage(buttons[clicks[k]].step)
  {
    [LoadStage(CurrentStage(buttons))] + ClickLoads(buttons, clicks)
  }

  // ---------------------------------------------------------------------------
  // Lemmas

  /** Each known stage loads its own module under `./steps/`. */
  lemma KnownStageModules()
    ensures LoadStage(Some("Import")) == LoadModule("./steps/import.js")
    ensures LoadStage(Some("Edit")) == LoadModule("./steps/edit.js")
    ensures LoadStage(Some("Music")) == LoadModule("./steps/music.js")
    ensures LoadStage(Some("Final Checks")) == LoadModule("./steps/final.js")
    ensures LoadStage(Some("Export")) == LoadModule("./steps/export.js")
    ensures LoadStage(Some("Upload")) == LoadModule("./steps/upload.js")
  {
  }

  /** `ModulePath` is defined exactly on the six known stages. */
  lemma ModulePathDomain(stage: string)
    ensures ModulePath(stage).Some? <==> stage in KnownStages
  {
  }

  /** Distinct stages never load the same module. */
  lemma ModulePathInjective(a: string, b: string)
    requires ModulePath(a).Some? && ModulePath(a) == ModulePath(b)
    ensures a == b
  {
  }

  /** Any other value, including a case variant of a known name and `undefined`, only warns. */
  lemma UnknownStageWarns(stage: Option<string>)
    requires stage.None? || stage.value !in KnownStages
    ensures LoadStage(stage) == Warning("Unknown stage: " + StageText(stage))
  {
  }

  /** Matching is case-sensitive: the lower-case spellings of the stage names are unknown. */
  lemma LowerCaseStagesUnknown()
    ensures LoadStage(Some("import")) == Warning("Unknown stage: import")
    ensures LoadStage(Some("edit")) == Warning("Unknown stage: edit")
    ensures LoadStage(Some("final checks")) == Warning("Unknown stage: final checks")
  {
    UnknownStageWarns(Some("import"));
    UnknownStageWarns(Some("edit"));
    UnknownStageWarns(Some("final checks"));
  }

  /**
   * The current stage is the `data-step` of the first active button, later
   * active buttons do not matter, and it is `"Import"` when none is active.
   */
  lemma CurrentStageIsFirstActive(buttons: seq<StageButton>, i: nat)
    requires i < |buttons| && buttons[i].active
    requires forall j :: 0 <= j < i ==> !buttons[j].active
    ensures CurrentStage(buttons) == buttons[i].step
  {
  }

  lemma NoActiveButtonMeansImport(buttons: seq<StageButton>)
    requires forall i :: 0 <= i < |buttons| ==> !buttons[i].active
    ensures CurrentStage(buttons) == Some("Import")
    ensures LoadStage(CurrentStage(buttons)) == LoadModule("./steps/import.js")
  {
  }

  /** Appending a button after the first active one does not change the current stage. */
  lemma {:induction false} CurrentStageIgnoresLaterButtons(buttons: seq<StageButton>, more: seq<StageButton>)
    requires exists i :: 0 <= i < |buttons| && buttons[i].active
    ensures CurrentStage(buttons + more) == CurrentStage(buttons)
  {
    var i := FirstActive(buttons).value;
    var all := buttons + more;
    assert all[i] == buttons[i];
    forall j | 0 <= j < i ensures !all[j].active {
      assert all[j] == buttons[j];
    }
    CurrentStageIsFirstActive(all, i);
  }

  /**
   * Startup requests exactly one load, for the current stage, and each
   * click requests exactly one more, for the clicked button's stage; no
   * event is dropped and none is reordered.
   */
  lemma {:induction false} RequestsAppendClick(buttons: seq<StageButton>, clicks: seq<nat>, c: nat)
    requires forall k :: 0 <= k < |clicks| ==> clicks[k] < |buttons|
    requires c < |buttons|
    ensures Requests(buttons, clicks + [c]) == Requests(buttons, clicks) + [LoadStage(buttons[c].step)]
  {
    var r := Requests(buttons, clicks + [c]);
    var q := Requests(buttons, clicks) + [LoadStage(buttons[c].step)];
    assert |r| == |q|;
    forall k | 0 <= k < |r| ensures r[k] == q[k] {
      if 0 < k <= |clicks| {
        assert (clicks + [c])[k - 1] == clicks[k - 1];
      }
    }
  }

  /** Without clicks the only request is the startup load. */
  lemma StartupLoadsCurrentStage(buttons: seq<StageButton>)
    ensures Requests(buttons, []) == [LoadStage(CurrentStage(buttons))]
  {
  }
}
