# Rutwik Video Editor: media import session and stage loader, in Dafny

This project models the two parts of the Rutwik Video Editor front end that
hold its logic, and proves what they promise.

- **The media import session** (`steps/import.js`). It covers
  `handleMediaUpload`, `revokeCurrentURL`, the click handler of a rendered
  library item, and the project-title rules.
  - The page-global state is the class `MediaSession.Editor`. Its fields are
    `mediaLibrary`, `currentObjectURL`, the preview element's `src`,
    `controls` and title text, and the error notices shown so far.
  - `URL.createObjectURL` is a counter of fresh ids. `URL.revokeObjectURL`
    adds an id to a set of revoked ids.
  - `videoPreview.canPlayType` is an injected function from string to string.
  - The handlers `HandleMediaUpload`, `ClickLibraryItem` and
    `RevokeCurrentUrl` are proved to leave exactly the state that `Upload`,
    `Click` or `RevokeCurrent` of `MediaImport` describes, and to keep the
    session invariant `MediaImport.Invariant`. `AttachElements` changes only
    `ready` and keeps the invariant.
  - The loop helpers `ImportFile`, `ImportBatch` and `PreviewLast` are proved
    to leave the state that `ImportOne`, `ImportAll` and `ShowLast` describe.
    They keep the invariant only as steps of `HandleMediaUpload`; on their
    own they promise nothing about it. `CreateObjectUrl` returns the
    allocator's value and advances it.
  - The upload loop is stated for any per-file verdict (a `Judge`).
    `handleMediaUpload` itself uses `Judgement(canPlay)`: the prefix check,
    then the playback oracle for video and audio. The batch lemmas therefore
    hold whatever the oracle answers.
  - The title rules are pure functions in `ProjectTitle`.
- **The stage dispatcher** (`steps/stage-loader.js`). `StageLoader` has
  these pure functions:
  - `ModulePath`, the closed `switch` of `loadStage`;
  - `CurrentStage`, which is `getCurrentStage` over the sequence of
    `.progress-step` buttons;
  - `Requests`, the loads requested by startup and by each later click.

A `data-step` attribute and `project.title` can both be `undefined` in the
source. They are `Option<string>` here, with `None` for `undefined`.

Modules:

| module | file |
|---|---|
| `Wrappers` | wrappers.dfy |
| `JsText` | js_text.dfy |
| `MediaImport` | media_import.dfy |
| `MediaSession` | media_session.dfy |
| `ProjectTitle` | project_title.dfy |
| `StageLoader` | stage_loader.dfy |

`JsText` holds `trim` (the ECMAScript whitespace set) and `split('/')[0]`.

Facts about the code that shape the model:

- **No reuse check on click.** The click handler revokes the current URL
  and may then bind the same, now revoked, URL to the preview again
  (`MediaImport.ClickRebindsRevokedUrl`).
- **No stage state.** `loadStage` keeps no current-stage marker and
  discards no load: every event requests its load, in event order
  (`StageLoader.Requests`).
- **Oracle answers.** `canPlayType` is taken as a refusal exactly on `""`
  and `"no"`; every other answer accepts the file.
- **The kind of an item.** The stored `type` is the MIME text before the
  first `/`; an unsupported file is never stored.
- **Skipped files.** The upload handler returns nothing; each skipped file
  shows one notice.
- **An image as the last accepted file.** When the last accepted file of an
  upload is an image, it becomes `currentObjectURL` and the preview is left
  as it was.

## Model

| member | source | states |
|---|---|---|
| JsText.Trim | steps/import.js:277 | `trim` gives the empty string exactly when the input is all ECMAScript whitespace; otherwise the result starts and ends with a non-whitespace character |
| JsText.TrimIsSlice | steps/import.js:303 | the trimmed title is a contiguous slice of the input, with only whitespace before and after it |
| JsText.TrimIdempotent | steps/import.js:303 | trimming twice is trimming once |
| JsText.BeforeFirst | steps/import.js:121 | `split('/')[0]` is the longest prefix without `/`, and is followed by `/` when it is shorter than the input |
| JsText.BeforeFirstOfPrefix | steps/import.js:121 | a MIME type that starts with `video/`, `audio/` or `image/` splits to `video`, `audio` or `image` |
| MediaImport.Initial | steps/import.js:5-6 | the page starts with an empty library, nothing current and nothing revoked, and the invariant holds |
| MediaImport.PrefixesExclusive | steps/import.js:101-111 | no MIME type has two of the three accepted prefixes |
| MediaImport.AcceptanceRule | steps/import.js:101-117 | a file is unsupported exactly when it has none of the three prefixes; unplayable exactly when it is video or audio and `canPlayType` answers `""` or `"no"`; accepted otherwise; an image is accepted whatever the oracle answers |
| MediaImport.KindOfAccepted | steps/import.js:120-122 | an accepted file's `type` is `video`, `audio` or `image`, and is the MIME text before its first `/` |
| MediaImport.AcceptedFilesMembers | steps/import.js:97-125 | a file is among the accepted files exactly when it is in the batch and passes validation |
| MediaImport.RejectedFileDoesNotStopBatch | steps/import.js:106-108 | a rejected file contributes nothing, and the files after it are accepted exactly as if it were absent |
| MediaImport.EveryFileAcceptedOrReported | steps/import.js:97-125 | every file of a batch is either accepted or reported by one notice |
| MediaImport.ImportPrefixLibrary | steps/import.js:97-125 | after the first n files, the library is the old one followed by one item per accepted file in input order, with URLs allocated consecutively, and the allocator has moved past them |
| MediaImport.ImportPrefixNotices | steps/import.js:106-114 | after the first n files, the notices are the old ones followed by one notice per rejected file, in input order |
| MediaImport.ImportPrefixKeepsRest | steps/import.js:97-125 | the loop changes only the library, the URL allocator and the notices |
| MediaImport.LastAddedIsLastItem | steps/import.js:95-124 | `lastFile` after the loop is the last item appended, or null when none was |
| MediaImport.RevokeCurrentEffect | steps/import.js:45-50 | `revokeCurrentURL` is a no-op when nothing is current; otherwise it revokes exactly the current URL and clears it |
| MediaImport.RevokeCurrentPreservesInvariant | steps/import.js:45-50 | revoking keeps the session invariant |
| MediaImport.UploadWithoutEffect | steps/import.js:86-92 | an empty or absent file list changes nothing; missing preview or title elements only add the initialization error notice |
| MediaImport.UploadAppendsAcceptedFiles | steps/import.js:97-125 | after an upload, the library is the old library, unchanged, followed by the accepted files in input order, each with the next fresh URL; the notices grow by the rejected files' notices |
| MediaImport.UploadedItemsDescribed | steps/import.js:97-125 | with the handler's own validation, each new item is a batch file that passed validation, under its name, with a fresh URL and `type` video, audio or image taken from its MIME type |
| MediaImport.UploadGoesAhead | steps/import.js:94-141 | an upload that goes ahead ends in the state after the loop, with the last appended item previewed when there is one |
| MediaImport.UploadRevokesCurrent | steps/import.js:94 | an upload that goes ahead revokes the previously current URL and nothing else, and that URL does not stay current |
| MediaImport.UploadInstallsLastAccepted | steps/import.js:127-141 | after an upload that accepted a file, the last accepted item's URL is current even for an image; a video is previewed with controls, audio clears the preview; with no accepted file nothing is current and the preview is unchanged |
| MediaImport.ImportAllPreservesInvariant | steps/import.js:120-123 | the loop keeps every URL allocated and all library URLs distinct, keeps the current URL and preview source in the library, and only appends to it |
| MediaImport.ShowLastPreservesInvariant | steps/import.js:127-141 | previewing an item of the library keeps the invariant |
| MediaImport.UploadPreservesInvariant | steps/import.js:85-144 | an upload keeps the invariant, and the library only grows |
| MediaImport.ClickEffect | steps/import.js:174-199 | a click revokes the current URL; a video is bound with controls and becomes current; audio clears the preview and becomes current; an image, or any item before the elements are found, leaves nothing current and the preview as it was; the library, the URL allocator, the notices and `ready` are unchanged, so a click creates no URL and shows no notice |
| MediaImport.ClickPreservesInvariant | steps/import.js:174-199 | a click keeps the invariant |
| MediaImport.ClickRebindsRevokedUrl | steps/import.js:175-187 | clicking the current video revokes its URL and binds the same revoked URL again |
| MediaSession.Editor.constructor | steps/import.js:5-6 | the state starts as `Initial` |
| MediaSession.Editor.AttachElements | steps/import.js:213-214 | looking up the preview and title elements changes only whether they exist |
| MediaSession.Editor.CreateObjectUrl | steps/import.js:120 | `createObjectURL` returns an id never handed out before and advances the allocator |
| MediaSession.Editor.RevokeCurrentUrl | steps/import.js:45-50 | the new state is `RevokeCurrent` of the old one, and the invariant is kept |
| MediaSession.Editor.ImportFile | steps/import.js:98-124 | one loop iteration validates the file and either appends its item with a fresh URL or appends its notice, and returns the item it added |
| MediaSession.Editor.ImportBatch | steps/import.js:95-125 | the loop leaves the state the batch fold describes, and `lastFile` is the last item appended |
| MediaSession.Editor.PreviewLast | steps/import.js:127-141 | the new state is the automatic preview of the given item |
| MediaSession.Editor.HandleMediaUpload | steps/import.js:85-144 | the handler leaves exactly the state `Upload` describes, and keeps the invariant |
| MediaSession.Editor.ClickLibraryItem | steps/import.js:174-199 | the click handler leaves exactly the state `Click` describes, and keeps the invariant |
| ProjectTitle.Save | steps/import.js:277-284 | saving is refused, with the fixed message, exactly when the title is absent or all whitespace; otherwise the untrimmed title is quoted in the success message |
| ProjectTitle.PageTitleShape | steps/import.js:299-303 | the page title ends with the suffix; before it is the placeholder exactly when the title is all whitespace, and otherwise the title without its surrounding whitespace |
| ProjectTitle.PageTitleOfTrimmed | steps/import.js:303 | surrounding whitespace does not change the page title |
| ProjectTitle.SaveAgreesWithPageTitle | steps/import.js:277-303 | a title that saving refuses is shown as the placeholder, and a title it accepts is shown trimmed |
| ProjectTitle.SaveAfterLoad | steps/import.js:227-230 | saving right after load succeeds with the placeholder when the title element exists, and is refused otherwise |
| StageLoader.LoadStage | steps/stage-loader.js:35-58 | a load is requested exactly for the six known stage names; anything else warns `Unknown stage: ` followed by the value |
| StageLoader.KnownStageModules | steps/stage-loader.js:36-54 | each of the six stages loads its own module under `./steps/` |
| StageLoader.ModulePathDomain | steps/stage-loader.js:36-56 | the mapping is defined exactly on the six known names |
| StageLoader.ModulePathInjective | steps/stage-loader.js:36-54 | distinct stages never load the same module |
| StageLoader.UnknownStageWarns | steps/stage-loader.js:55-56 | any other value, including `undefined`, only produces the warning |
| StageLoader.LowerCaseStagesUnknown | steps/stage-loader.js:55-56 | lower-case variants such as `import` are unknown stages |
| StageLoader.FirstActive | steps/stage-loader.js:27 | the selected button is the first active one, and there is none exactly when no button is active |
| StageLoader.CurrentStageIsFirstActive | steps/stage-loader.js:26-29 | the current stage is the `data-step` of the first active button |
| StageLoader.NoActiveButtonMeansImport | steps/stage-loader.js:28 | with no active button, the current stage is `Import` and `./steps/import.js` is loaded |
| StageLoader.CurrentStageIgnoresLaterButtons | steps/stage-loader.js:26-29 | buttons after the first active one do not affect the current stage |
| StageLoader.ClickLoads | steps/stage-loader.js:14-19 | each click requests exactly one load, for that button's `data-step`, in click order |
| StageLoader.Requests | steps/stage-loader.js:4-21 | startup requests exactly one load, for the current stage, and then one per click for the clicked button's stage |
| StageLoader.RequestsAppendClick | steps/stage-loader.js:14-19 | one more click appends exactly one request and changes none of the earlier ones |
| StageLoader.StartupLoadsCurrentStage | steps/stage-loader.js:6-11 | without clicks, the only request is the startup load of the current stage |

## Left out

- DOM rendering is not modelled: `renderMediaLibrary`'s list building, the clip counter, the icons and the `active` highlighting of list items (steps/import.js:143, 150-173, 178-179). The click handler is modelled as clicking the i-th library entry.
- `displayVisualError` becomes an append to the sequence of notices. The error box element and the 6-second `setTimeout` that hides it are browser side effects and are not modelled.
- `videoPreview.load()` and the audio playback on click are not modelled (steps/import.js:131, 184, 189-192). The asynchronous `play()` failure notice is not modelled either.
- `revoked` is a set: it records that a URL was released, not how often. Clicking the current video and then another item releases the same URL twice, and the second release is not recorded (a browser ignores it).
- Object URLs are ids, not strings. Every URL string is truthy, which is why `if (currentObjectURL)` becomes `current.Some?`. The file bytes are not modelled.
- `videoPreview.src = ""` becomes the source `NoSource`. How a browser resolves an empty `src` is not modelled.
- The `input` listener at steps/import.js:289-294 only stores `projectTitleInput.value` in `project.title`; the listener at steps/import.js:299-304 also sets the page title, which `ProjectTitle.PageTitle` models. The title rules take the stored value as their argument.
- The upload button, the file input and drag and drop only call `handleMediaUpload` with the selected files (steps/import.js:237-270). They are not modelled. `setProgressStep` only logs and is not modelled either.
- The dynamic `import()` of a stage module and its asynchronous success or failure are not modelled. `console.log` and `console.warn` become the `Warning` request or are dropped (steps/stage-loader.js:8-10, 17).
- A click is given as the index of an existing button or library entry, because only rendered elements can be clicked.
- editor.js is not part of this model. It is an earlier draft of the same page: it does not parse, and its upload handler conflicts with steps/import.js. steps/edit.js only logs and is not part of this model either.
