/**
 * The media import session of steps/import.js, stated on values.
 *
 * A `Session` is the page's state as the import code sees it: the ordered
 * media library, the one "current" object URL, the object-URL allocator
 * (`URL.createObjectURL` hands out fresh ids, `URL.revokeObjectURL` adds
 * them to a revoked set), the preview element's fields and the error
 * notices shown so far. `Upload`, `Click` and `RevokeCurrent` are the
 * specifications that the methods of `MediaSession.Editor` are proved to
 * implement; the lemmas below state what the source promises about them.
 */
module MediaImport {
  import opened Wrappers
  import opened JsText

  /** An object URL, as an id handed out by the allocator. */
  type Url = nat

  /** The playback oracle `videoPreview.canPlayType`. */
  type Oracle = string -> string

  /** A selected file: its name and declared MIME type (the bytes are not modelled). */
  datatype RawFile = RawFile(name: string, mimeType: string)

  /** An entry of `mediaLibrary`; `kind` is the source's `type` field. */
  datatype MediaItem = MediaItem(name: string, url: Url, file: RawFile, kind: string)

  /** The preview's `src`: an object URL, or cleared (`src = ""`). */
  datatype Source = NoSource | ObjectUrl(url: Url)

  /** The `videoPreview` fields the core writes, and the `currentMediaTitle` text. */
  datatype Preview = Preview(src: Source, controls: bool, caption: string)

  datatype Session = Session(
    ready: bool,             // `videoPreview` and `currentMediaTitle` were found
    library: seq<MediaItem>, // `mediaLibrary`
    current: Option<Url>,    // `currentObjectURL`
    nextUrl: Url,            // the id the next `createObjectURL` returns
    revoked: set<Url>,       // every id passed to `revokeObjectURL`
    preview: Preview,
    notices: seq<string>)    // messages the upload handler passes to `displayVisualError`, in order

  const InitError := "Editor initialization error. Please try refreshing."

  // ---------------------------------------------------------------------------
  // Validation of one file

  datatype Verdict = Accepted | Unsupported | Unplayable

  predicate IsVideoOrAudio(mime: string) {
    "video/" <= mime || "audio/" <= mime
  }

  predicate HasMediaPrefix(mime: string) {
    IsVideoOrAudio(mime) || "image/" <= mime
  }

  /** The oracle answers that make a video or audio file unplayable. */
  predicate OracleRefuses(answer: string) {
    answer == "" || answer == "no"
  }

  /**
   * The per-file check of `handleMediaUpload`: the MIME prefix first, then,
   * for video and audio only, the playback oracle.
   */
  function Validate(f: RawFile, canPlay: Oracle): Verdict {
    if !HasMediaPrefix(f.mimeType) then Unsupported
    else if IsVideoOrAudio(f.mimeType) && OracleRefuses(canPlay(f.mimeType)) then Unplayable
    else Accepted
  }

  /** No MIME type starts with two of the three accepted prefixes. */
  lemma PrefixesExclusive(mime: string)
    ensures "image/" <= mime ==> !IsVideoOrAudio(mime)
    ensures "video/" <= mime ==> !("audio/" <= mime)
  {
    if "image/" <= mime || "video/" <= mime {
      assert mime[0] == mime[..6][0];
    }
  }

  /** The message shown for a file that was not accepted. */
  function SkipNotice(f: RawFile, v: Verdict): string {
    if v == Unsupported then "Skipping unsupported file: " + f.name
    else "Playback not supported for file: " + f.name
  }

  /** The library entry made for an accepted file with a freshly created URL. */
  function MakeItem(f: RawFile, url: Url): MediaItem {
    MediaItem(f.name, url, f, BeforeFirst(f.mimeType, '/'))
  }

  // ---------------------------------------------------------------------------
  // The batch, file by file

  /**
   * A verdict for every file. The batch functions are stated for any judge;
   * `handleMediaUpload` uses `Judgement(canPlay)`.
   */
  type Judge = RawFile -> Verdict

  function Judgement(canPlay: Oracle): Judge {
    f => Validate(f, canPlay)
  }

  /**
   * One iteration of the upload loop, for a file with verdict `v`: an
   * accepted file gets the next object URL and is appended to the library;
   * any other file is reported.
   */
  function ImportOne(s: Session, f: RawFile, v: Verdict): Session {
    if v == Accepted then s.(library := s.library + [MakeItem(f, s.nextUrl)], nextUrl := s.nextUrl + 1)
    else s.(notices := s.notices + [SkipNotice(f, v)])
  }

  /** The state after the upload loop has handled the first `n` files. */
  function ImportPrefix(s: Session, files: seq<RawFile>, n: nat, judge: Judge): Session
    requires n <= |files|
  {
    if n == 0 then s
    else ImportOne(ImportPrefix(s, files, n - 1, judge), files[n - 1], judge(files[n - 1]))
  }

  /** `lastFile` after the first `n` files: the item appended last, if any. */
  function LastAdded(s: Session, files: seq<RawFile>, n: nat, judge: Judge): Option<MediaItem>
    requires n <= |files|
  {
    if n == 0 then None
    else if judge(files[n - 1]) == Accepted then Some(MakeItem(files[n - 1], ImportPrefix(s, files, n - 1, judge).nextUrl))
    else LastAdded(s, files, n - 1, judge)
  }

  /** The accepted files of a batch in input order: the reference definition, a filter. */
  function AcceptedFiles(files: seq<RawFile>, judge: Judge): (r: seq<RawFile>)
    ensures |r| <= |files|
  {
    if files == [] then []
    else (if judge(files[0]) == Accepted then [files[0]] else []) + AcceptedFiles(files[1..], judge)
  }

  /** The notices of the rejected files of a batch in input order: the reference definition. */
  function SkipNotices(files: seq<RawFile>, judge: Judge): seq<string> {
    if files == [] then []
    else
      var v := judge(files[0]);
      (if v == Accepted then [] else [SkipNotice(files[0], v)]) + SkipNotices(files[1..], judge)
  }

  // ---------------------------------------------------------------------------
  // Session operations

  /** `revokeCurrentURL`. */
  function RevokeCurrent(s: Session): Session {
    match s.current
    case None => s
    case Some(u) => s.(current := None, revoked := s.revoked + {u})
  }

  /** The state after the `forEach` loop of `handleMediaUpload` has gone over `files`. */
  function ImportAll(s: Session, files: seq<RawFile>, judge: Judge): Session {
    ImportPrefix(s, files, |files|, judge)
  }

  /** The automatic preview of the last item an upload accepted. */
  function ShowLast(s: Session, m: MediaItem): Session {
    var p :=
      if m.kind == "video" then Preview(ObjectUrl(m.url), true, m.name)
      else if m.kind == "audio" then Preview(NoSource, false, "Ready: " + m.name + " (Audio)")
      else s.preview;
    s.(preview := p, current := Some(m.url))
  }

  /**
   * `handleMediaUpload(files)` with verdicts from `judge`; the handler itself
   * uses `Judgement(canPlay)`. `None` stands for an absent file list.
   */
  function Upload(s: Session, files: Option<seq<RawFile>>, judge: Judge): Session {
    if files.None? || files.value == [] then s
    else if !s.ready then s.(notices := s.notices + [InitError])
    else
      var r := RevokeCurrent(s);
      var t := ImportAll(r, files.value, judge);
      match LastAdded(r, files.value, |files.value|, judge)
      case None => t
      case Some(last) => ShowLast(t, last)
  }

  /** The click handler of the `i`-th rendered library item. */
  function Click(s: Session, i: nat): Session
    requires i < |s.library|
  {
    var r := RevokeCurrent(s);
    var m := s.library[i];
    if m.kind == "video" && s.ready then
      r.(preview := Preview(ObjectUrl(m.url), true, m.name), current := Some(m.url))
    else if m.kind == "audio" && s.ready then
      r.(preview := Preview(NoSource, false, "Playing: " + m.name + " (Audio)"), current := Some(m.url))
    else r
  }

  // ---------------------------------------------------------------------------
  // The session invariant

  predicate IsLibraryUrl(lib: seq<MediaItem>, u: Url) {
    exists i :: 0 <= i < |lib| && lib[i].url == u
  }

  /**
   * Every URL was allocated, library URLs are pairwise distinct, and the
   * current URL and the preview's source are URLs of library entries.
   */
  predicate Invariant(s: Session) {
    (forall i :: 0 <= i < |s.library| ==> s.library[i].url < s.nextUrl)
    && (forall i, j :: 0 <= i < j < |s.library| ==> s.library[i].url != s.library[j].url)
    && (forall u :: u in s.revoked ==> u < s.nextUrl)
    && (s.current.Some? ==> IsLibraryUrl(s.library, s.current.value))
    && (s.preview.src.ObjectUrl? ==> IsLibraryUrl(s.library, s.preview.src.url))
  }

  /** The state the page starts in: nothing imported, nothing current. */
  function Initial(controls: bool, caption: string): (s: Session)
    ensures Invariant(s)
    ensures s.library == [] && s.current == None && s.revoked == {} && !s.ready
  {
    Session(false, [], None, 0, {}, Preview(NoSource, controls, caption), [])
  }

  // ---------------------------------------------------------------------------
  // Lemmas about one file and about batches

  /**
   * The acceptance rule: a file is unsupported exactly when its MIME type
   * has none of the three prefixes; it is unplayable exactly when it is
   * video or audio and the oracle answers "" or "no"; an image is always
   * accepted, whatever the oracle would answer.
   */
  lemma AcceptanceRule(f: RawFile, canPlay: Oracle)
    ensures Validate(f, canPlay) == Unsupported <==>
      !("video/" <= f.mimeType) && !("audio/" <= f.mimeType) && !("image/" <= f.mimeType)
    ensures Validate(f, canPlay) == Unplayable <==>
      ("video/" <= f.mimeType || "audio/" <= f.mimeType) && OracleRefuses(canPlay(f.mimeType))
    ensures Validate(f, canPlay) == Accepted <==>
      ("image/" <= f.mimeType)
      || (("video/" <= f.mimeType || "audio/" <= f.mimeType) && !OracleRefuses(canPlay(f.mimeType)))
    ensures "image/" <= f.mimeType ==> Validate(f, canPlay) == Accepted
  {
    PrefixesExclusive(f.mimeType);
  }

  /** An accepted file's `type` is the MIME text before the first `/`: video, audio or image. */
  lemma {:induction false} KindOfAccepted(f: RawFile, canPlay: Oracle, url: Url)
    requires Validate(f, canPlay) == Accepted
    ensures MakeItem(f, url).kind + "/" <= f.mimeType
    ensures MakeItem(f, url).kind in {"video", "audio", "image"}
  {
    var m := f.mimeType;
    if "video/" <= m {
      BeforeFirstOfPrefix("video", '/', m);
    } else if "audio/" <= m {
      BeforeFirstOfPrefix("audio", '/', m);
    } else {
      BeforeFirstOfPrefix("image", '/', m);
    }
  }

  // ---------------------------------------------------------------------------
  // Lemmas about batches

  /** A file is among the accepted files of a batch exactly when it is in the batch and the judge accepts it. */
  lemma {:induction false} AcceptedFilesMembers(files: seq<RawFile>, judge: Judge, f: RawFile)
    ensures f in AcceptedFiles(files, judge) <==> f in files && judge(f) == Accepted
    decreases |files|
  {
    if files != [] {
      AcceptedFilesMembers(files[1..], judge, f);
      assert files == [files[0]] + files[1..];
    }
  }

  lemma {:induction false} AcceptedFilesAppend(a: seq<RawFile>, b: seq<RawFile>, judge: Judge)
    ensures AcceptedFiles(a + b, judge) == AcceptedFiles(a, judge) + AcceptedFiles(b, judge)
    decreases |a|
  {
    if a == [] {
      assert a + b == b;
    } else {
      var ab := a + b;
      assert ab[0] == a[0];
      assert ab[1..] == a[1..] + b;
      AcceptedFilesAppend(a[1..], b, judge);
      var head := if judge(a[0]) == Accepted then [a[0]] else [];
      var x, y := AcceptedFiles(a[1..], judge), AcceptedFiles(b, judge);
      calc {
        AcceptedFiles(ab, judge);
        head + AcceptedFiles(a[1..] + b, judge);
        head + (x + y);
        { assert head + (x + y) == (head + x) + y; }
        (head + x) + y;
      }
    }
  }

  lemma {:induction false} SkipNoticesAppend(a: seq<RawFile>, b: seq<RawFile>, judge: Judge)
    ensures SkipNotices(a + b, judge) == SkipNotices(a, judge) + SkipNotices(b, judge)
    decreases |a|
  {
    if a == [] {
      assert a + b == b;
    } else {
      var ab := a + b;
      assert ab[0] == a[0];
      assert ab[1..] == a[1..] + b;
      SkipNoticesAppend(a[1..], b, judge);
      var head := if judge(a[0]) == Accepted then [] else [SkipNotice(a[0], judge(a[0]))];
      var x, y := SkipNotices(a[1..], judge), SkipNotices(b, judge);
      calc {
        SkipNotices(ab, judge);
        head + SkipNotices(a[1..] + b, judge);
        head + (x + y);
        { assert head + (x + y) == (head + x) + y; }
        (head + x) + y;
      }
    }
  }

  /**
   * A rejected file does not stop the batch: the files after it are
   * accepted exactly as if it were not there.
   */
  lemma RejectedFileDoesNotStopBatch(before: seq<RawFile>, f: RawFile, after: seq<RawFile>, judge: Judge)
    requires judge(f) != Accepted
    ensures AcceptedFiles(before + [f] + after, judge) == AcceptedFiles(before, judge) + AcceptedFiles(after, judge)
  {
    AcceptedFilesAppend(before + [f], after, judge);
    AcceptedFilesAppend(before, [f], judge);
    assert [f][1..] == [];
    assert AcceptedFiles([f], judge) == [] + AcceptedFiles([], judge);
  }

  /** Every file of a batch is either accepted or reported, never both, never neither. */
  lemma {:induction false} EveryFileAcceptedOrReported(files: seq<RawFile>, judge: Judge)
    ensures |AcceptedFiles(files, judge)| + |SkipNotices(files, judge)| == |files|
    decreases |files|
  {
    if files != [] {
      EveryFileAcceptedOrReported(files[1..], judge);
    }
  }

  /** One more file extends the accepted files or the notices of a prefix by its own share. */
  lemma PrefixStep(files: seq<RawFile>, n: nat, judge: Judge)
    requires 0 < n <= |files|
    ensures var f := files[n - 1]; var v := judge(f);
      && AcceptedFiles(files[..n], judge) == AcceptedFiles(files[..n - 1], judge) + (if v == Accepted then [f] else [])
      && SkipNotices(files[..n], judge) == SkipNotices(files[..n - 1], judge) + (if v == Accepted then [] else [SkipNotice(f, v)])
  {
    var f := files[n - 1];
    assert files[..n] == files[..n - 1] + [f];
    AcceptedFilesAppend(files[..n - 1], [f], judge);
    SkipNoticesAppend(files[..n - 1], [f], judge);
    assert [f][1..] == [];
  }

  /**
   * After the first `n` files the library is the old one followed by one
   * item per accepted file, in input order, with URLs allocated
   * consecutively; the allocator has moved past them.
   */
  lemma {:induction false} ImportPrefixLibrary(s: Session, files: seq<RawFile>, n: nat, judge: Judge)
    requires n <= |files|
    ensures var t := ImportPrefix(s, files, n, judge);
      var acc := AcceptedFiles(files[..n], judge);
      && s.library <= t.library
      && |t.library| == |s.library| + |acc|
      && t.nextUrl == s.nextUrl + |acc|
      && forall k :: 0 <= k < |acc| ==> t.library[|s.library| + k] == MakeItem(acc[k], s.nextUrl + k)
  {
    if n > 0 {
      ImportPrefixLibrary(s, files, n - 1, judge);
      PrefixStep(files, n, judge);
    }
  }

  /** After the first `n` files the notices are the old ones followed by those of the rejected files. */
  lemma {:induction false} ImportPrefixNotices(s: Session, files: seq<RawFile>, n: nat, judge: Judge)
    requires n <= |files|
    ensures ImportPrefix(s, files, n, judge).notices == s.notices + SkipNotices(files[..n], judge)
  {
    if n > 0 {
      ImportPrefixNotices(s, files, n - 1, judge);
      PrefixStep(files, n, judge);
    }
  }

  /** The loop changes nothing but the library, the allocator and the notices. */
  lemma {:induction false} ImportPrefixKeepsRest(s: Session, files: seq<RawFile>, n: nat, judge: Judge)
    requires n <= |files|
    ensures var t := ImportPrefix(s, files, n, judge);
      t == s.(library := t.library, nextUrl := t.nextUrl, notices := t.notices)
  {
    if n > 0 {
      ImportPrefixKeepsRest(s, files, n - 1, judge);
    }
  }

  /** The item the loop remembers as `lastFile` is the last one of the library, if it appended any. */
  lemma {:induction false} LastAddedIsLastItem(s: Session, files: seq<RawFile>, n: nat, judge: Judge)
    requires n <= |files|
    ensures var t := ImportPrefix(s, files, n, judge);
      && |t.library| >= |s.library|
      && LastAdded(s, files, n, judge) == if |t.library| == |s.library| then None else Some(t.library[|t.library| - 1])
  {
    if n > 0 {
      LastAddedIsLastItem(s, files, n - 1, judge);
    }
  }

  // ---------------------------------------------------------------------------
  // Lemmas about the session operations

  /** `revokeCurrentURL` is a no-op when nothing is current, and otherwise revokes exactly the current URL. */
  lemma RevokeCurrentEffect(s: Session)
    ensures RevokeCurrent(s).current == None
    ensures s.current == None ==> RevokeCurrent(s) == s
    ensures s.current.Some? ==>
      RevokeCurrent(s).revoked == s.revoked + {s.current.value}
      && RevokeCurrent(s) == s.(current := None, revoked := RevokeCurrent(s).revoked)
  {
  }

  lemma RevokeCurrentPreservesInvariant(s: Session)
    requires Invariant(s)
    ensures Invariant(RevokeCurrent(s))
  {
  }

  /**
   * An upload of an empty or absent list changes nothing; one made before
   * the preview and title elements exist only shows an error: nothing is
   * revoked, allocated, appended or previewed.
   */
  lemma UploadWithoutEffect(s: Session, files: Option<seq<RawFile>>, judge: Judge)
    requires files.None? || files.value == [] || !s.ready
    ensures files.None? || files.value == [] ==> Upload(s, files, judge) == s
    ensures Upload(s, files, judge) == s.(notices := Upload(s, files, judge).notices)
    ensures files.Some? && files.value != [] ==> Upload(s, files, judge).notices == s.notices + [InitError]
  {
  }

  /**
   * After an upload that goes ahead, the library is the old library followed
   * by one item per accepted file, in input order, with URLs allocated
   * consecutively from the old `nextUrl`; the allocator has moved past them,
   * and the notices of the rejected files were added in input order.
   */
  lemma UploadAppendsAcceptedFiles(s: Session, files: Option<seq<RawFile>>, judge: Judge)
    requires files.Some? && files.value != [] && s.ready
    ensures var t := Upload(s, files, judge);
      var acc := AcceptedFiles(files.value, judge);
      && s.library <= t.library
      && |t.library| == |s.library| + |acc|
      && (forall k :: 0 <= k < |acc| ==> t.library[|s.library| + k] == MakeItem(acc[k], s.nextUrl + k))
      && t.nextUrl == s.nextUrl + |acc|
      && t.notices == s.notices + SkipNotices(files.value, judge)
  {
    var r := RevokeCurrent(s);
    var fs := files.value;
    ImportPrefixLibrary(r, fs, |fs|, judge);
    ImportPrefixNotices(r, fs, |fs|, judge);
    assert fs[..|fs|] == fs;
  }

  /**
   * With the handler's own verdicts, the k-th new item is the k-th accepted
   * file of the batch, a file that passed validation, under its own name,
   * with URL `nextUrl + k` and the MIME type's text before `/` (video, audio
   * or image) as its `type`.
   */
  lemma UploadedItemsDescribed(s: Session, files: Option<seq<RawFile>>, canPlay: Oracle)
    requires files.Some? && files.value != [] && s.ready
    ensures var t := Upload(s, files, Judgement(canPlay));
      var acc := AcceptedFiles(files.value, Judgement(canPlay));
      && |t.library| == |s.library| + |acc|
      && forall k :: 0 <= k < |acc| ==>
           var m := t.library[|s.library| + k];
           && acc[k] in files.value && Validate(acc[k], canPlay) == Accepted
           && m.name == acc[k].name && m.file == acc[k] && m.url == s.nextUrl + k
           && m.kind in {"video", "audio", "image"} && m.kind + "/" <= acc[k].mimeType
  {
    var judge := Judgement(canPlay);
    var acc := AcceptedFiles(files.value, judge);
    UploadAppendsAcceptedFiles(s, files, judge);
    forall k | 0 <= k < |acc|
      ensures acc[k] in files.value && Validate(acc[k], canPlay) == Accepted
      ensures MakeItem(acc[k], s.nextUrl + k).kind in {"video", "audio", "image"}
      ensures MakeItem(acc[k], s.nextUrl + k).kind + "/" <= acc[k].mimeType
    {
      AcceptedFilesMembers(files.value, judge, acc[k]);
      assert judge(acc[k]) == Validate(acc[k], canPlay);
      KindOfAccepted(acc[k], canPlay, s.nextUrl + k);
    }
  }

  /** The outcome of an upload that goes ahead, in terms of the state after its loop. */
  lemma UploadGoesAhead(s: Session, files: Option<seq<RawFile>>, judge: Judge)
    requires files.Some? && files.value != [] && s.ready
    ensures var t := ImportAll(RevokeCurrent(s), files.value, judge);
      && |t.library| >= |s.library|
      && Upload(s, files, judge) == if |t.library| == |s.library| then t else ShowLast(t, t.library[|t.library| - 1])
  {
    LastAddedIsLastItem(RevokeCurrent(s), files.value, |files.value|, judge);
  }

  /**
   * An upload that goes ahead first revokes the URL that was current, and
   * revokes nothing else; that URL does not stay current.
   */
  lemma UploadRevokesCurrent(s: Session, files: Option<seq<RawFile>>, judge: Judge)
    requires Invariant(s)
    requires files.Some? && files.value != [] && s.ready
    ensures var t := Upload(s, files, judge);
      && t.revoked == RevokeCurrent(s).revoked
      && (s.current.Some? ==> s.current.value in t.revoked && t.current != s.current)
  {
    var r := RevokeCurrent(s);
    var fs := files.value;
    ImportPrefixKeepsRest(r, fs, |fs|, judge);
    UploadGoesAhead(s, files, judge);
    ImportPrefixLibrary(r, fs, |fs|, judge);
    var t0 := ImportAll(r, fs, judge);
    if |t0.library| > |s.library| {
      var acc := AcceptedFiles(fs[..|fs|], judge);
      assert t0.library[|t0.library| - 1] == MakeItem(acc[|acc| - 1], s.nextUrl + (|acc| - 1));
    }
  }

  /**
   * An upload that goes ahead makes the last accepted item current
   * (whatever its kind), or leaves nothing current when no file was
   * accepted. The preview shows a video with controls, clears itself for
   * audio, and is left alone for an image or when nothing was accepted.
   */
  lemma UploadInstallsLastAccepted(s: Session, files: Option<seq<RawFile>>, judge: Judge)
    requires files.Some? && files.value != [] && s.ready
    ensures var t := Upload(s, files, judge);
      && (AcceptedFiles(files.value, judge) == [] ==> t.current == None && t.preview == s.preview)
      && (AcceptedFiles(files.value, judge) != [] ==>
            |t.library| > |s.library| &&
            var last := t.library[|t.library| - 1];
            && t.current == Some(last.url)
            && (last.kind == "video" ==> t.preview == Preview(ObjectUrl(last.url), true, last.name))
            && (last.kind == "audio" ==> t.preview == Preview(NoSource, false, "Ready: " + last.name + " (Audio)"))
            && (last.kind != "video" && last.kind != "audio" ==> t.preview == s.preview))
  {
    var r := RevokeCurrent(s);
    var fs := files.value;
    var t0 := ImportAll(r, fs, judge);
    ImportPrefixKeepsRest(r, fs, |fs|, judge);
    UploadGoesAhead(s, files, judge);
    ImportPrefixLibrary(r, fs, |fs|, judge);
    assert fs[..|fs|] == fs;
  }

  /** A URL of a library entry stays one when the library grows. */
  lemma LibraryUrlGrows(lib: seq<MediaItem>, all: seq<MediaItem>, u: Url)
    requires lib <= all && IsLibraryUrl(lib, u)
    ensures IsLibraryUrl(all, u)
  {
    var i :| 0 <= i < |lib| && lib[i].url == u;
    assert all[i] == lib[i];
  }

  /** Extending a library by items with consecutive fresh URLs keeps every URL allocated and all URLs distinct. */
  lemma AppendFreshUrls(lib: seq<MediaItem>, all: seq<MediaItem>, next: Url)
    requires lib <= all
    requires forall i :: 0 <= i < |lib| ==> lib[i].url < next
    requires forall i, j :: 0 <= i < j < |lib| ==> lib[i].url != lib[j].url
    requires forall k :: |lib| <= k < |all| ==> all[k].url == next + (k - |lib|)
    ensures forall i :: 0 <= i < |all| ==> all[i].url < next + (|all| - |lib|)
    ensures forall i, j :: 0 <= i < j < |all| ==> all[i].url != all[j].url
  {
    forall i | 0 <= i < |lib| ensures all[i] == lib[i] {
    }
  }

  /** The loop over a batch keeps the invariant and only appends to the library. */
  lemma ImportAllPreservesInvariant(s: Session, files: seq<RawFile>, judge: Judge)
    requires Invariant(s)
    ensures Invariant(ImportAll(s, files, judge))
    ensures s.library <= ImportAll(s, files, judge).library
  {
    var t := ImportAll(s, files, judge);
    var acc := AcceptedFiles(files[..|files|], judge);
    ImportPrefixLibrary(s, files, |files|, judge);
    ImportPrefixKeepsRest(s, files, |files|, judge);
    forall k | |s.library| <= k < |t.library|
      ensures t.library[k].url == s.nextUrl + (k - |s.library|)
    {
      var j := k - |s.library|;
      assert t.library[|s.library| + j] == MakeItem(acc[j], s.nextUrl + j);
    }
    AppendFreshUrls(s.library, t.library, s.nextUrl);
    if s.current.Some? {
      LibraryUrlGrows(s.library, t.library, s.current.value);
    }
    if s.preview.src.ObjectUrl? {
      LibraryUrlGrows(s.library, t.library, s.preview.src.url);
    }
  }

  lemma ShowLastPreservesInvariant(s: Session, m: MediaItem)
    requires Invariant(s) && IsLibraryUrl(s.library, m.url)
    ensures Invariant(ShowLast(s, m))
  {
  }

  lemma UploadPreservesInvariant(s: Session, files: Option<seq<RawFile>>, judge: Judge)
    requires Invariant(s)
    ensures Invariant(Upload(s, files, judge))
    ensures s.library <= Upload(s, files, judge).library
  {
    if files.Some? && files.value != [] && s.ready {
      var r := RevokeCurrent(s);
      var t := ImportAll(r, files.value, judge);
      RevokeCurrentPreservesInvariant(s);
      ImportAllPreservesInvariant(r, files.value, judge);
      UploadGoesAhead(s, files, judge);
      if |t.library| != |r.library| {
        var last := t.library[|t.library| - 1];
        assert IsLibraryUrl(t.library, last.url);
        ShowLastPreservesInvariant(t, last);
      }
    }
  }

  /**
   * Clicking a library item first revokes the current URL. A video is bound
   * to the preview with controls and becomes current; an audio item clears
   * the preview and becomes current; an image leaves nothing current and the
   * preview as it was. Before the elements are found a click only revokes.
   * Apart from the preview and the current URL, nothing differs from the
   * revocation: no URL is created and no notice is shown.
   */
  lemma ClickEffect(s: Session, i: nat)
    requires i < |s.library|
    ensures var t := Click(s, i); var m := s.library[i];
      && t == RevokeCurrent(s).(preview := t.preview, current := t.current)
      && t.library == s.library && t.nextUrl == s.nextUrl && t.notices == s.notices && t.ready == s.ready
      && (!s.ready ==> t == RevokeCurrent(s))
      && (s.ready && m.kind == "video" ==> t.current == Some(m.url) && t.preview == Preview(ObjectUrl(m.url), true, m.name))
      && (s.ready && m.kind == "audio" ==> t.current == Some(m.url) && t.preview == Preview(NoSource, false, "Playing: " + m.name + " (Audio)"))
      && (s.ready && m.kind != "video" && m.kind != "audio" ==> t.current == None && t.preview == s.preview)
  {
  }

  lemma ClickPreservesInvariant(s: Session, i: nat)
    requires Invariant(s) && i < |s.library|
    ensures Invariant(Click(s, i))
  {
  }

  /**
   * The click handler has no reuse check: clicking the video item whose URL
   * is current revokes that URL and then binds the very same, now revoked,
   * URL to the preview again.
   */
  lemma ClickRebindsRevokedUrl(s: Session, i: nat)
    requires i < |s.library| && s.ready && s.library[i].kind == "video"
    requires s.current == Some(s.library[i].url)
    ensures Click(s, i).current == Some(s.library[i].url)
    ensures s.library[i].url in Click(s, i).revoked
    ensures Click(s, i).preview.src == ObjectUrl(s.library[i].url)
  {
  }
}
