/** The editor session of the `App` component (src/App.tsx): its state hooks become
    the fields of a `Session`, and the callbacks that change them become methods.
    The session has two screens: the upload area while no video is stored, and the
    editor once one is. No method clears the stored video, so the editor is final. */
module Editor {
  import opened Wrappers
  import opened Captions

  /** A dropped browser `File`: only its name and MIME type matter here. */
  datatype File = File(name: string, mimeType: string)

  /** The severity of a notification; a toast without a variant is `Default`. */
  datatype Variant = Default | Destructive

  /** One notification as it is handed to `toast(...)`. */
  datatype Toast = Toast(title: string, description: string, variant: Variant)

  /** What the page shows: the drop area, or the preview and the caption editor. */
  datatype Screen = UploadArea | Workspace

  const InvalidFileToast := Toast("Invalid file", "Please upload a video file", Destructive)
  const SuccessToast := Toast("Success", "Video processed successfully", Default)
  const FailureToast := Toast("Error", "Failed to process video", Destructive)

  /** The one caption the stubbed generation step produces, whatever the video. */
  const GeneratedCaption := Caption(
    "Generated caption example", 0.0, 2.0, "#ffffff", 24.0, Position(50.0, 80.0),
    "Inter", "default")

  /** JavaScript's `s.startsWith(prefix)`. */
  predicate StartsWith(s: string, prefix: string) {
    |prefix| <= |s| && s[..|prefix|] == prefix
  }

  predicate IsVideo(f: File) {
    StartsWith(f.mimeType, "video/")
  }

  /** `file && file.type.startsWith('video/')` with `file = acceptedFiles[0]`:
      an empty drop has no first file and is refused like a non-video. */
  predicate AcceptsDrop(acceptedFiles: seq<File>) {
    |acceptedFiles| > 0 && IsVideo(acceptedFiles[0])
  }

  class Session {
    var videoFile: Option<File>
    var videoUrl: string
    var isProcessing: bool
    var captions: seq<Caption>
    var selectedCaption: int
    /** Every toast raised so far, oldest first. */
    var toasts: seq<Toast>

    /** The session invariant: a stored file is always a video, and while none is
        stored there is no URL, no caption and no generation in flight. */
    ghost predicate Valid()
      reads this
    {
      && (videoFile.Some? ==> IsVideo(videoFile.value))
      && (videoFile.None? ==> videoUrl == "" && captions == [] && !isProcessing)
    }

    /** The page being shown: `!videoFile ? <drop area> : <editor>`. */
    function CurrentScreen(): (r: Screen)
      reads this
      ensures r == Workspace <==> videoFile.Some?
    {
      if videoFile.None? then UploadArea else Workspace
    }

    /** The initial values of the component's `useState` hooks. */
    constructor ()
      ensures Valid()
      ensures videoFile == None && videoUrl == "" && !isProcessing
      ensures captions == [] && selectedCaption == 0 && toasts == []
      ensures CurrentScreen() == UploadArea
    {
      videoFile := None;
      videoUrl := "";
      isProcessing := false;
      captions := [];
      selectedCaption := 0;
      toasts := [];
    }

    /** `processVideo`: generation runs as one step. `generationThrows` stands for
        the awaited call failing; the stubbed delay in `processVideo` (App.tsx:76) never
        rejects, so `OnDrop`
        passes `false`. Either way `finally` clears the processing flag. It runs only
        from `OnDrop`, once the dropped video is stored. */
    method ProcessVideo(file: File, generationThrows: bool)
      requires Valid() && videoFile.Some?
      modifies this`isProcessing, this`captions, this`toasts
      ensures Valid()
      ensures !isProcessing
      ensures captions == if generationThrows then old(captions) else [GeneratedCaption]
      ensures toasts == old(toasts) + [if generationThrows then FailureToast else SuccessToast]
    {
      isProcessing := true;
      if generationThrows {
        toasts := toasts + [FailureToast];
      } else {
        captions := [GeneratedCaption];
        toasts := toasts + [SuccessToast];
      }
      isProcessing := false;
    }

    /** `onDrop`: store the first accepted file if it is a video, take `objectUrl`
        (the result of `URL.createObjectURL`) as its playback URL and generate the
        captions; otherwise raise one destructive toast and change nothing else. */
    method OnDrop(acceptedFiles: seq<File>, objectUrl: string)
      requires Valid()
      modifies this`videoFile, this`videoUrl, this`isProcessing, this`captions, this`toasts
      ensures Valid()
      ensures AcceptsDrop(acceptedFiles) ==>
        && videoFile == Some(acceptedFiles[0])
        && videoUrl == objectUrl
        && captions == [GeneratedCaption]
        && !isProcessing
        && toasts == old(toasts) + [SuccessToast]
      ensures !AcceptsDrop(acceptedFiles) ==>
        && videoFile == old(videoFile)
        && videoUrl == old(videoUrl)
        && captions == old(captions)
        && isProcessing == old(isProcessing)
        && toasts == old(toasts) + [InvalidFileToast]
      ensures old(videoFile).Some? ==> videoFile.Some?
      ensures old(CurrentScreen()) == Workspace ==> CurrentScreen() == Workspace
    {
      var file: Option<File> := if |acceptedFiles| > 0 then Some(acceptedFiles[0]) else None;
      if file.Some? && StartsWith(file.value.mimeType, "video/") {
        videoFile := file;
        videoUrl := objectUrl;
        ProcessVideo(file.value, false);
      } else {
        toasts := toasts + [InvalidFileToast];
      }
    }

    /** `updateCaption`: merge `updates` over the caption at `index`; an index
        outside the list changes nothing. */
    method UpdateCaption(index: int, updates: CaptionPatch)
      requires Valid()
      modifies this`captions
      ensures Valid()
      ensures captions == Captions.UpdateCaption(old(captions), index, updates)
      // The frame facts of the pure update, restated here for callers' convenience.
      ensures |captions| == |old(captions)|
      ensures 0 <= index < |captions| ==> captions[index] == Merge(old(captions)[index], updates)
      ensures forall j :: 0 <= j < |captions| && j != index ==> captions[j] == old(captions)[j]
    {
      captions := Captions.UpdateCaption(captions, index, updates);
    }

    /** `setSelectedCaption(index)`, called when a row of the caption list is clicked. */
    method SelectCaption(index: int)
      requires Valid()
      modifies this`selectedCaption
      ensures Valid()
      ensures selectedCaption == index
    {
      selectedCaption := index;
    }
  }

  /** Dropping an mp4 and then renaming the generated caption. */
  method VideoUploadScenario()
  {
    var s := new Session();
    s.OnDrop([File("sample.mp4", "video/mp4")], "blob:sample");
    assert s.CurrentScreen() == Workspace;
    assert |s.captions| == 1 && s.captions[0].text == "Generated caption example";
    assert s.captions[0].startTime == 0.0 && s.captions[0].endTime == 2.0;
    assert s.captions[0].font == "Inter" && !s.isProcessing;
    assert s.toasts == [SuccessToast];
    s.UpdateCaption(0, NoChanges.(text := Some("Hello")));
    SingleFieldEdits(GeneratedCaption, "Hello", 0.0);
    assert s.captions == [GeneratedCaption.(text := "Hello")];
    assert ShownFontSize(s.captions, s.selectedCaption) == 24.0;
  }

  /** Dropping a PDF leaves the drop area up with one destructive toast. */
  method DocumentUploadScenario()
  {
    var s := new Session();
    assert "application/pdf"[0] != "video/"[0];
    s.OnDrop([File("document.pdf", "application/pdf")], "blob:document");
    assert s.CurrentScreen() == UploadArea;
    assert s.captions == [] && s.toasts == [InvalidFileToast];
    assert s.toasts[0].variant == Destructive;
  }
}
