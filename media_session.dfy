/**
 * The module-level state of steps/import.js and the handlers that update it
 * in place. The handlers `HandleMediaUpload`, `ClickLibraryItem` and
 * `RevokeCurrentUrl` are proved to leave the state that `Upload`, `Click` and
 * `RevokeCurrent` of `MediaImport` describe, and to keep
 * `MediaImport.Invariant`; `AttachElements` changes only `ready` and keeps it.
 * The loop helpers `ImportFile`, `ImportBatch` and `PreviewLast` are proved
 * equal to `ImportOne`, `ImportAll` and `ShowLast` and promise nothing about
 * the invariant on their own.
 */
module MediaSession {
  import opened Wrappers
  import opened JsText
  import opened MediaImport

  class Editor {
    var ready: bool                 // `videoPreview && currentMediaTitle`
    var mediaLibrary: seq<MediaItem>
    var currentObjectUrl: Option<Url>
    var nextUrl: Url                // the object-URL allocator
    var revoked: set<Url>           // URLs released by `URL.revokeObjectURL`
    var previewSrc: Source          // `videoPreview.src`
    var previewControls: bool       // `videoPreview.controls`
    var mediaTitle: string          // `currentMediaTitle.textContent`
    var notices: seq<string>        // messages the upload handler passes to `displayVisualError`

    /** The abstract value of the editor. */
    function State(): Session
      reads this
    {
      Session(ready, mediaLibrary, currentObjectUrl, nextUrl, revoked,
              Preview(previewSrc, previewControls, mediaTitle), notices)
    }

    predicate Valid()
      reads this
    {
      Invariant(State())
    }

    /** The script is loaded: empty library, nothing current, elements not yet looked up. */
    constructor (controls: bool, caption: string)
      ensures Valid() && State() == Initial(controls, caption)
    {
      ready, mediaLibrary, currentObjectUrl := false, [], None;
      nextUrl, revoked := 0, {};
      previewSrc, previewControls, mediaTitle := NoSource, controls, caption;
      notices := [];
    }

    /** `DOMContentLoaded`: the preview and title elements are looked up. */
    method AttachElements(found: bool)
      requires Valid()
      modifies this
      ensures Valid() && State() == old(State()).(ready := found)
    {
      ready := found;
    }

    /** `URL.createObjectURL`: a URL that was never handed out before. */
    method CreateObjectUrl() returns (url: Url)
      modifies this`nextUrl
      ensures url == old(nextUrl) && nextUrl == url + 1
    {
      url := nextUrl;
      nextUrl := nextUrl + 1;
    }

    /** `revokeCurrentURL`: release the current URL, if any, and forget it. */
    method RevokeCurrentUrl()
      requires Valid()
      modifies this
      ensures Valid() && State() == RevokeCurrent(old(State()))
    {
      if currentObjectUrl.Some? {
        revoked := revoked + {currentObjectUrl.value};
        currentObjectUrl := None;
      }
      RevokeCurrentPreservesInvariant(old(State()));
    }

    /** One iteration of the upload loop: validate `file`, then append it or report it. */
    method ImportFile(file: RawFile, canPlay: Oracle) returns (added: Option<MediaItem>)
      modifies this`mediaLibrary, this`nextUrl, this`notices
      ensures State() == ImportOne(old(State()), file, Validate(file, canPlay))
      ensures added == if Validate(file, canPlay) == Accepted then Some(MakeItem(file, old(nextUrl))) else None
    {
      var fileType := file.mimeType;
      if !HasMediaPrefix(fileType) {
        notices := notices + [SkipNotice(file, Unsupported)];
        return None;
      }
      if IsVideoOrAudio(fileType) && OracleRefuses(canPlay(fileType)) {
        notices := notices + [SkipNotice(file, Unplayable)];
        return None;
      }
      var url := CreateObjectUrl();
      var newMedia := MediaItem(file.name, url, file, BeforeFirst(fileType, '/'));
      mediaLibrary := mediaLibrary + [newMedia];
      added := Some(newMedia);
    }

    /** The `forEach` loop of `handleMediaUpload`: every file of `batch`, in order. */
    method ImportBatch(batch: seq<RawFile>, canPlay: Oracle) returns (lastFile: Option<MediaItem>)
      modifies this`mediaLibrary, this`nextUrl, this`notices
      ensures State() == ImportAll(old(State()), batch, Judgement(canPlay))
      ensures lastFile == LastAdded(old(State()), batch, |batch|, Judgement(canPlay))
    {
      ghost var s0 := State();
      lastFile := None;
      var i := 0;
      while i < |batch|
        invariant 0 <= i <= |batch|
        invariant State() == ImportPrefix(s0, batch, i, Judgement(canPlay))
        invariant lastFile == LastAdded(s0, batch, i, Judgement(canPlay))
      {
        var added := ImportFile(batch[i], canPlay);
        if added.Some? {
          lastFile := added;
        }
        i := i + 1;
      }
    }

    /** The automatic preview of the last accepted item, whatever its kind. */
    method PreviewLast(last: MediaItem)
      modifies this
      ensures State() == ShowLast(old(State()), last)
    {
      if last.kind == "video" {
        previewSrc := ObjectUrl(last.url);
        previewControls := true;
        mediaTitle := last.name;
      } else if last.kind == "audio" {
        previewSrc := NoSource;
        previewControls := false;
        mediaTitle := "Ready: " + last.name + " (Audio)";
      }
      currentObjectUrl := Some(last.url);
    }

    /** `handleMediaUpload(files)`, with `canPlay` standing for `videoPreview.canPlayType`. */
    method HandleMediaUpload(files: Option<seq<RawFile>>, canPlay: Oracle)
      requires Valid()
      modifies this
      ensures Valid() && State() == Upload(old(State()), files, Judgement(canPlay))
    {
      UploadPreservesInvariant(State(), files, Judgement(canPlay));
      if files.None? || |files.value| == 0 {
        return;
      }
      if !ready {
        notices := notices + [InitError];
        return;
      }
      RevokeCurrentUrl();
      var lastFile := ImportBatch(files.value, canPlay);
      if lastFile.Some? {
        PreviewLast(lastFile.value);
      }
    }

    /** The click handler of the `i`-th item of the rendered media list. */
    method ClickLibraryItem(i: nat)
      requires Valid() && i < |mediaLibrary|
      modifies this
      ensures Valid() && State() == Click(old(State()), i)
    {
      ClickPreservesInvariant(State(), i);
      var media := mediaLibrary[i];
      RevokeCurrentUrl();
      if media.kind == "video" && ready {
        previewSrc := ObjectUrl(media.url);
        previewControls := true;
        mediaTitle := media.name;
        currentObjectUrl := Some(media.url);
      } else if media.kind == "audio" && ready {
        previewSrc := NoSource;
        previewControls := false;
        mediaTitle := "Playing: " + media.name + " (Audio)";
        currentObjectUrl := Some(media.url);
      }
    }
  }
}
