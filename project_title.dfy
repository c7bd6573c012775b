/**
 * The project-title rules of steps/import.js: the page title kept in sync
 * with the title input, and the check made when the project is saved.
 *
 * `project.title` starts out `undefined` (`project = {}`), becomes
 * `"Untitled Project"` once the title element is found, and afterwards holds
 * the input's raw value; it is an `Option<string>` here, `None` standing for
 * `undefined`.
 */
module ProjectTitle {
  import opened Wrappers
  import opened JsText

  const Placeholder := "Untitled Project"
  const TitleSuffix := " - Rutwik Video Editor"
  const EmptyTitleError := "Please enter a project title before saving."

  /** The message the save button shows, and whether it is the refusal. */
  datatype SaveOutcome = Rejected(message: string) | Saved(message: string)

  /** `project.title` after `DOMContentLoaded`, depending on whether the title element exists. */
  function TitleAtLoad(elementFound: bool): Option<string> {
    if elementFound then Some(Placeholder) else None
  }

  /** `(title.trim() || "Untitled Project") + suffix`: an empty string is falsy. */
  function PageTitle(title: string): string {
    var trimmed := Trim(title);
    (if trimmed == [] then Placeholder else trimmed) + TitleSuffix
  }

  /**
   * The save button: refused when the title is absent or falsy, or trims
   * to the empty string; otherwise the untrimmed title is quoted back.
   */
  function Save(title: Option<string>): (r: SaveOutcome)
    ensures r.Rejected? <==> title.None? || AllWhitespace(title.value)
    ensures r.Rejected? ==> r.message == EmptyTitleError
    ensures r.Saved? ==> r.message == "Project \"" + title.value + "\" saved successfully."
  {
    if title.None? || title.value == [] || Trim(title.value) == [] then Rejected(EmptyTitleError)
    else Saved("Project \"" + title.value + "\" saved successfully.")
  }

  // ---------------------------------------------------------------------------
  // Lemmas

  /**
   * The page title always ends with the suffix. What precedes it is the
   * placeholder exactly when the title is all whitespace, and otherwise a
   * slice of the title that starts and ends with a non-whitespace character
   * and has only whitespace around it in the title.
   */
  lemma PageTitleShape(title: string) returns (i: nat)
    ensures var p := PageTitle(title);
      && |p| >= |TitleSuffix| && p[|p| - |TitleSuffix|..] == TitleSuffix
    ensures var head := PageTitle(title)[..|PageTitle(title)| - |TitleSuffix|];
      && (AllWhitespace(title) ==> head == Placeholder)
      && (!AllWhitespace(title) ==>
            && head == Trim(title) && head != []
            && i + |head| <= |title| && head == title[i..i + |head|]
            && !IsJsWhitespace(head[0]) && !IsJsWhitespace(head[|head| - 1])
            && (forall k :: 0 <= k < i ==> IsJsWhitespace(title[k]))
            && (forall k :: i + |head| <= k < |title| ==> IsJsWhitespace(title[k])))
  {
    i := TrimIsSlice(title);
    var trimmed := Trim(title);
    var head := if trimmed == [] then Placeholder else trimmed;
    var p := head + TitleSuffix;
    assert p[..|p| - |TitleSuffix|] == head;
    assert p[|p| - |TitleSuffix|..] == TitleSuffix;
  }

  /** Surrounding whitespace never shows in the page title, and does not change it. */
  lemma PageTitleOfTrimmed(title: string)
    ensures PageTitle(Trim(title)) == PageTitle(title)
  {
    TrimIdempotent(title);
  }

  /**
   * A title the save button refuses is shown as the placeholder; a title it
   * accepts is shown trimmed.
   */
  lemma SaveAgreesWithPageTitle(title: string)
    ensures Save(Some(title)).Rejected? ==> PageTitle(title) == Placeholder + TitleSuffix
    ensures Save(Some(title)).Saved? ==> PageTitle(title) == Trim(title) + TitleSuffix
  {
  }

  /**
   * Saving right after the page has loaded succeeds with the placeholder
   * title when the title element exists, and is refused when it does not.
   */
  lemma SaveAfterLoad()
    ensures Save(TitleAtLoad(true)) == Saved("Project \"" + Placeholder + "\" saved successfully.")
    ensures Save(TitleAtLoad(false)) == Rejected(EmptyTitleError)
  {
    assert Placeholder[0] == 'U';
  }
}
