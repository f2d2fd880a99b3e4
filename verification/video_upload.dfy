/**
 * The upload form (src/frontend/src/components/VideoUpload.tsx): the state
 * fields `title`, `selectedFile`, `uploadProgress` and `isDragging`, the
 * handlers that update them, the enable condition of the upload button, and the
 * extension strip that turns a file name into a default title.
 *
 * The upload handler's awaits are modelled by parameters: whether reading the
 * file's bytes succeeds (`bytesRead`), whether the remote write goes through
 * (`reachable`), and the clock reading (`clockMs`). Progress callbacks of the
 * blob transfer arrive through `ReportProgress`.
 */
module VideoUpload {
  import opened Wrappers
  import opened JsString
  import opened UseQueries

  /** A browser `File`: its name, its declared MIME type, its size and its bytes. */
  datatype File = File(name: string, mimeType: string, size: nat, contents: seq<bv8>)

  /** `file.type.startsWith('video/')`. */
  predicate IsVideo(file: File): (r: bool)
    ensures r <==> exists subtype :: file.mimeType == "video/" + subtype
  {
    StartsWith(file.mimeType, "video/")
  }

  // ---------------------------------------------------------------------
  // The extension strip `name.replace(/\.[^/.]+$/, '')`

  /**
   * The pattern `\.[^/.]+$` matches name from index i: a dot, then one or more
   * characters up to the end of the name, none of them '/' or '.'.
   */
  predicate ExtensionAt(name: string, i: int) {
    0 <= i < |name| - 1 && name[i] == '.' &&
    forall j :: i < j < |name| ==> name[j] != '/' && name[j] != '.'
  }

  /** The pattern can match at one index at most, so the first match is the only one. */
  lemma ExtensionAtUnique(name: string, i: int, j: int)
    requires ExtensionAt(name, i) && ExtensionAt(name, j)
    ensures i == j
  {
  }

  /** Where the pattern matches, scanning from the end of the name; None when it does not match. */
  function ExtensionStart(name: string): (r: Option<nat>)
    ensures r.Some? ==> ExtensionAt(name, r.value)
    ensures r.None? ==> forall i :: !ExtensionAt(name, i)
  {
    if |name| < 2 then None
    else
      var last := name[|name| - 1];
      if last == '/' || last == '.' then None
      else if name[|name| - 2] == '.' then Some(|name| - 2)
      else
        var shorter := name[..|name| - 1];
        assert forall i :: ExtensionAt(name, i) ==> ExtensionAt(shorter, i);
        ExtensionStart(shorter)
  }

  /**
   * The default title for a file: its name without the final extension. The
   * result is always a prefix of the name; it is the name cut at the matching
   * dot when the pattern matches, and the whole name when it does not.
   */
  function StripExtension(name: string): (r: string)
    ensures |r| <= |name| && r == name[..|r|]
    ensures forall i :: ExtensionAt(name, i) ==> r == name[..i]
    ensures (forall i :: !ExtensionAt(name, i)) ==> r == name
  {
    match ExtensionStart(name)
    case None => name
    case Some(i) =>
      assert forall j :: ExtensionAt(name, j) ==> j == i by {
        forall j | ExtensionAt(name, j) ensures j == i {
          ExtensionAtUnique(name, i, j);
        }
      }
      name[..i]
  }

  /** Examples of the extension strip. */
  lemma StripExtensionExamples()
    ensures StripExtension("dance.mp4") == "dance"
    ensures StripExtension("a.b.c") == "a.b"
    ensures StripExtension("file.") == "file."
    ensures StripExtension("dir.x/file") == "dir.x/file"
    ensures StripExtension(".mov") == ""
  {
    assert ExtensionAt("dance.mp4", 5);
    assert ExtensionAt("a.b.c", 3);
    assert ExtensionAt(".mov", 0);
    assert "dir.x/file"[5] == '/';
  }

  // ---------------------------------------------------------------------
  // The form

  /**
   * The guard at the top of `handleUpload`: a file is selected and the title is
   * not blank. Blank means empty or made only of white space.
   */
  predicate UploadReady(title: string, file: Option<File>): (r: bool)
    ensures r <==> file.Some? && !AllWhiteSpace(title)
  {
    file.Some? && Trim(title) != ""
  }

  /** The gate passes exactly when a file is selected and the title has a non-blank character. */
  lemma UploadReadyMeaning(title: string, file: Option<File>)
    ensures UploadReady(title, file) <==> file.Some? && exists k :: 0 <= k < |title| && !IsWhiteSpace(title[k])
  {
  }

  /** What one press of the upload button came to. */
  datatype UploadOutcome =
    | Blocked   // the guard failed: nothing was sent and nothing changed
    | Failed    // reading the file, the actor or the remote write failed
    | Uploaded  // the remote write went through

  class UploadForm {
    var title: string
    var selectedFile: Option<File>
    var uploadProgress: int
    var isDragging: bool

    /**
     * The file the form holds is always a video file: selection is the only way
     * a file gets in, and it refuses every other type. `handleUpload` does not
     * check the type again and relies on this.
     */
    ghost predicate HeldIsVideo()
      reads this
    {
      selectedFile.Some? ==> IsVideo(selectedFile.value)
    }

    constructor ()
      ensures title == "" && selectedFile == None && uploadProgress == 0 && !isDragging
      ensures HeldIsVideo()
    {
      title := "";
      selectedFile := None;
      uploadProgress := 0;
      isDragging := false;
    }

    /** The title input's `onChange`. */
    method EditTitle(text: string)
      modifies this`title
      ensures title == text
    {
      title := text;
    }

    /**
     * `handleFileSelect`: a file whose type is not `video/...` is refused and
     * nothing changes. A video file replaces any selected file, and fills in the
     * title from the file name only when the title is the empty string.
     */
    method SelectFile(file: File)
      requires HeldIsVideo()
      modifies this`selectedFile, this`title
      ensures HeldIsVideo()
      ensures !IsVideo(file) ==> selectedFile == old(selectedFile) && title == old(title)
      ensures IsVideo(file) ==> selectedFile == Some(file)
      ensures IsVideo(file) && old(title) == "" ==> title == StripExtension(file.name)
      ensures old(title) != "" ==> title == old(title)
    {
      if !IsVideo(file) {
        return;
      }
      selectedFile := Some(file);
      if title == "" {
        title := StripExtension(file.name);
      }
    }

    /** `handleFileInputChange`: the first picked file, if any, goes through `SelectFile`. */
    method FileInputChange(files: seq<File>)
      requires HeldIsVideo()
      modifies this`selectedFile, this`title
      ensures HeldIsVideo()
      ensures files == [] ==> selectedFile == old(selectedFile) && title == old(title)
      ensures files != [] && IsVideo(files[0]) ==> selectedFile == Some(files[0])
      ensures files != [] && !IsVideo(files[0]) ==> selectedFile == old(selectedFile) && title == old(title)
      ensures files != [] && IsVideo(files[0]) && old(title) == "" ==> title == StripExtension(files[0].name)
      ensures old(title) != "" ==> title == old(title)
    {
      if files != [] {
        SelectFile(files[0]);
      }
    }

    /** `handleDragOver`. */
    method DragOver()
      modifies this`isDragging
      ensures isDragging
    {
      isDragging := true;
    }

    /** `handleDragLeave`. */
    method DragLeave()
      modifies this`isDragging
      ensures !isDragging
    {
      isDragging := false;
    }

    /**
     * `handleDrop`: the drag ends, and the first dropped file, if any, is
     * selected as from the file picker.
     */
    method Drop(files: seq<File>)
      requires HeldIsVideo()
      modifies this`isDragging, this`selectedFile, this`title
      ensures HeldIsVideo()
      ensures !isDragging
      ensures files == [] ==> selectedFile == old(selectedFile) && title == old(title)
      ensures files != [] && IsVideo(files[0]) ==> selectedFile == Some(files[0])
      ensures files != [] && !IsVideo(files[0]) ==> selectedFile == old(selectedFile) && title == old(title)
      ensures files != [] && IsVideo(files[0]) && old(title) == "" ==> title == StripExtension(files[0].name)
      ensures old(title) != "" ==> title == old(title)
    {
      isDragging := false;
      if files != [] {
        SelectFile(files[0]);
      }
    }

    /** The "Change File" button: the file is dropped, the title is kept. */
    method ChangeFile()
      modifies this`selectedFile
      ensures selectedFile == None && title == old(title)
      ensures HeldIsVideo()
    {
      selectedFile := None;
    }

    /** The blob transfer's progress callback: the percentage is shown as given. */
    method ReportProgress(percentage: int)
      modifies this`uploadProgress
      ensures uploadProgress == percentage
    {
      uploadProgress := percentage;
    }

    /**
     * The upload button's enable condition: a file is selected, the title is
     * not blank, and no upload is pending. An enabled button always passes the
     * guard of `handleUpload`.
     */
    function UploadEnabled(isPending: bool): (r: bool)
      reads this
      ensures r <==> selectedFile.Some? && !AllWhiteSpace(title) && !isPending
      ensures r ==> UploadReady(title, selectedFile)
    {
      !(selectedFile.None? || Trim(title) == "" || isPending)
    }

    /**
     * `handleUpload`. When the guard fails nothing changes and nothing is sent.
     * Otherwise progress is reset, the file's bytes are read, and the mutation
     * is called with the trimmed title, a blob of the file's bytes and the
     * file's size. On success the form is cleared; on any failure only the
     * progress is reset and the title and file are kept for a retry.
     */
    method Upload(client: QueryClient, clockMs: nat, bytesRead: bool, reachable: bool)
      returns (outcome: UploadOutcome)
      requires client.Valid() && HeldIsVideo()
      modifies this`title, this`selectedFile, this`uploadProgress
      modifies client`store, client`writes, client`cache
      ensures client.Valid() && HeldIsVideo()
      ensures |client.writes| > |old(client.writes)| ==>
        old(selectedFile).Some? && IsVideo(old(selectedFile).value)
      ensures !UploadReady(old(title), old(selectedFile)) ==>
        outcome == Blocked && unchanged(this) && unchanged(client)
      ensures UploadReady(old(title), old(selectedFile)) ==> outcome != Blocked && uploadProgress == 0
      ensures client.writes ==
        if UploadReady(old(title), old(selectedFile)) && bytesRead && client.actorState.actor.Some?
        then old(client.writes) + [SentRecord(old(title), old(selectedFile).value, clockMs)]
        else old(client.writes)
      ensures outcome == Uploaded <==>
        UploadReady(old(title), old(selectedFile)) && bytesRead && client.actorState.actor.Some? && reachable
      ensures outcome == Uploaded ==>
        title == "" && selectedFile == None && client.cache == MarkStale(old(client.cache), VideosKey) &&
        client.store == old(client.store) + [SentRecord(old(title), old(selectedFile).value, clockMs)]
      ensures outcome != Uploaded ==>
        title == old(title) && selectedFile == old(selectedFile) &&
        client.store == old(client.store) && client.cache == old(client.cache)
    {
      if !UploadReady(title, selectedFile) {
        return Blocked;
      }
      uploadProgress := 0;
      if !bytesRead {
        uploadProgress := 0;
        return Failed;
      }
      var file := selectedFile.value;
      var result := client.UploadVideo(Trim(title), FromBytes(file.contents), file.size, clockMs, reachable);
      if result.Failure? {
        uploadProgress := 0;
        return Failed;
      }
      title := "";
      selectedFile := None;
      uploadProgress := 0;
      outcome := Uploaded;
    }
  }

  /** The one remote write an upload of file under title makes: trimmed title, the file's bytes and size. */
  function SentRecord(title: string, file: File, clockMs: nat): VideoMetadata {
    VideoMetadata(Trim(title), UploadDateNs(clockMs), FromBytes(file.contents), file.size)
  }

  // ---------------------------------------------------------------------
  // Client scenarios: what a caller can conclude from the contracts alone

  /** Picking `dance.mp4` into an empty form selects it and proposes the title `dance`. */
  method PickDanceScenario() returns (form: UploadForm, dance: File)
    ensures fresh(form) && form.title == "dance" && form.selectedFile == Some(dance)
    ensures form.HeldIsVideo()
    ensures dance.size == 5242880 && dance.contents == []
  {
    form := new UploadForm();
    dance := File("dance.mp4", "video/mp4", 5242880, []);
    assert IsVideo(dance);
    form.SelectFile(dance);
    assert ExtensionAt("dance.mp4", 5);
    assert form.title == "dance" && form.selectedFile == Some(dance);
  }

  /**
   * A ready form uploads through a connected actor to an empty backend: the
   * form is cleared, and the next fetch shows the one record sent.
   */
  method UploadThenFetchScenario(form: UploadForm, client: QueryClient, clockMs: nat)
    requires client.Valid() && client.store == [] && ListEnabled(client.actorState)
    requires UploadReady(form.title, form.selectedFile) && form.HeldIsVideo()
    modifies form, client
    ensures form.title == "" && form.selectedFile == None
    ensures VideosKey in client.cache && client.cache[VideosKey] ==
      CacheEntry([SentRecord(old(form.title), old(form.selectedFile).value, clockMs)], false)
  {
    var outcome := form.Upload(client, clockMs, true, true);
    assert outcome == Uploaded;
    var fetched := client.FetchVideos(true);
  }

  lemma FirstDanceIsTrimmed()
    ensures Trim("First Dance") == "First Dance"
  {
    var title := "First Dance";
    assert !IsWhiteSpace(title[0]) && !IsWhiteSpace(title[|title| - 1]);
    TrimFixedPoints(title);
  }

  /**
   * The "First Dance" upload of `dance.mp4` (5,242,880 bytes) becomes the one
   * gallery entry, with that title and size.
   */
  method FirstDanceScenario(actor: ActorHandle, clockMs: nat)
  {
    var title := "First Dance";
    FirstDanceIsTrimmed();
    var form, dance := PickDanceScenario();
    form.EditTitle(title);
    var client := new QueryClient(ActorState(Some(actor), false), []);
    UploadThenFetchScenario(form, client, clockMs);
    var entry := client.cache[VideosKey].data;
    assert |entry| == 1 && entry[0].title == title && entry[0].fileSize == 5242880;
  }

  /** A blank title blocks the upload and no remote call is made; with no actor the list query stays idle. */
  method BlankTitleScenario(clockMs: nat)
  {
    var client := new QueryClient(ActorState(None, true), []);
    var form := new UploadForm();
    form.SelectFile(File("clip.mov", "video/quicktime", 10, []));
    form.EditTitle("   ");
    assert AllWhiteSpace(form.title);
    assert !form.UploadEnabled(false);
    var outcome := form.Upload(client, clockMs, true, true);
    assert outcome == Blocked && client.writes == [];
    var fetched := client.FetchVideos(true);
    assert fetched == None && client.cache == map[];
  }
}
