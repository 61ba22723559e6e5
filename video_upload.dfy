/**
 The upload component's file check and its two pieces of state: whether a
 drag is over the drop zone, and the validation message shown.
 */
module VideoUpload {
  import opened Types

  /** What the component reads of a browser `File`. */
  datatype VideoFile = VideoFile(name: string, mimeType: string, size: nat)

  const MaxSize: nat := 100 * 1024 * 1024

  const AllowedTypes: seq<string> := ["video/mp4", "video/avi", "video/mov", "video/webm"]

  const FormatMessage := "Please upload a valid video file (MP4, AVI, MOV, or WebM)"
  const SizeMessage := "File size must be less than 100MB"

  /**
   `validateFile`: the type is checked before the size; a file passes exactly
   when its type is one of the four and it is at most 100 MiB.
   */
  function ValidateFile(file: VideoFile): (r: Option<string>)
    ensures r.None? <==> file.mimeType in AllowedTypes && file.size <= MaxSize
    ensures file.mimeType !in AllowedTypes ==> r == Some(FormatMessage)
    ensures file.mimeType in AllowedTypes && file.size > MaxSize ==> r == Some(SizeMessage)
  {
    if file.mimeType !in AllowedTypes then Some(FormatMessage)
    else if file.size > MaxSize then Some(SizeMessage)
    else None
  }

  /** The limit is inclusive: 104857600 bytes pass, one byte more does not. */
  lemma SizeLimitInclusive(name: string)
    ensures ValidateFile(VideoFile(name, "video/mp4", 104857600)).None?
    ensures ValidateFile(VideoFile(name, "video/mp4", 104857601)) == Some(SizeMessage)
  {
  }

  /** An oversized file of a wrong type gets the format message. */
  lemma TypeCheckedFirst(file: VideoFile)
    requires file.mimeType !in AllowedTypes && file.size > MaxSize
    ensures ValidateFile(file) == Some(FormatMessage)
  {
  }

  /** The `type` of a `DragEvent`. */
  datatype DragKind = DragEnter | DragOver | DragLeave | OtherDrag

  class Upload {
    var dragActive: bool
    var error: Option<string>

    constructor ()
      ensures !dragActive && error == None
    {
      dragActive := false;
      error := None;
    }

    /**
     `handleFile`: a file that passes is handed to `onVideoSelect` (returned as
     `selected`) and clears the message; one that fails sets the message and is
     not handed on.
     */
    method HandleFile(file: VideoFile) returns (selected: Option<VideoFile>)
      modifies this
      ensures ValidateFile(file).None? ==> selected == Some(file) && error == None
      ensures ValidateFile(file).Some? ==> selected == None && error == ValidateFile(file)
      ensures dragActive == old(dragActive)
    {
      var validationError := ValidateFile(file);
      if validationError.Some? {
        error := validationError;
        selected := None;
        return;
      }
      error := None;
      selected := Some(file);
    }

    /** `handleDrag`: enter and over set the flag, leave clears it, anything else leaves it. */
    method HandleDrag(kind: DragKind)
      modifies this
      ensures dragActive == (if kind == DragEnter || kind == DragOver then true
                             else if kind == DragLeave then false
                             else old(dragActive))
      ensures error == old(error)
    {
      if kind == DragEnter || kind == DragOver {
        dragActive := true;
      } else if kind == DragLeave {
        dragActive := false;
      }
    }

    /** `handleDrop`: clears the flag, then handles the first dropped file if there is one. */
    method HandleDrop(files: seq<VideoFile>) returns (selected: Option<VideoFile>)
      modifies this
      ensures !dragActive
      ensures files == [] ==> selected == None && error == old(error)
      ensures files != [] ==> selected == (if ValidateFile(files[0]).None? then Some(files[0]) else None)
      ensures files != [] ==> error == ValidateFile(files[0])
    {
      dragActive := false;
      selected := None;
      if files != [] {
        selected := HandleFile(files[0]);
      }
    }

    /** `handleChange`: the file input's first file, if any, is handled. */
    method HandleChange(files: seq<VideoFile>) returns (selected: Option<VideoFile>)
      modifies this
      ensures dragActive == old(dragActive)
      ensures files == [] ==> selected == None && error == old(error)
      ensures files != [] ==> selected == (if ValidateFile(files[0]).None? then Some(files[0]) else None)
      ensures files != [] ==> error == ValidateFile(files[0])
    {
      selected := None;
      if files != [] {
        selected := HandleFile(files[0]);
      }
    }
  }
}
