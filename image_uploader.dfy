/** `components/ImageUploader.tsx`: the gate that decides which dropped or chosen file
    reaches `onImageSelect`, and the `isDragging` highlight flag. Browser events are
    reduced to what the handlers read: the optional file list. */
module ImageUploader {
  import opened Wrappers
  import opened Types
  import JsString

  const ImagePrefix := "image/"

  /** `file.type.startsWith('image/')`: the type is `image/` followed by a subtype. */
  predicate IsImage(file: File)
    ensures IsImage(file) ==> |ImagePrefix| <= |file.mimeType| && file.mimeType == ImagePrefix + file.mimeType[|ImagePrefix|..]
  {
    JsString.StartsWith(file.mimeType, ImagePrefix)
  }

  /** The file an event hands to `onImageSelect`, if any: only when not loading, at
      least one file is present, and the FIRST file is an image; then it is that file. */
  function Accepted(isLoading: bool, files: Option<seq<File>>): (selected: Option<File>)
    ensures selected.Some? <==> !isLoading && files.Some? && |files.value| > 0 && IsImage(files.value[0])
    ensures selected.Some? ==> selected.value == files.value[0]
  {
    if isLoading then None
    else if files.Some? && |files.value| > 0 && IsImage(files.value[0]) then Some(files.value[0])
    else None
  }

  /** Files after the first are never looked at: an image in second place is not
      forwarded when the first file is not an image. */
  lemma OnlyFirstFileMatters(isLoading: bool, first: File, rest: seq<File>, other: seq<File>)
    ensures Accepted(isLoading, Some([first] + rest)) == Accepted(isLoading, Some([first] + other))
    ensures !IsImage(first) ==> Accepted(isLoading, Some([first] + rest)).None?
  {
  }

  /** A plain-text file is ignored; a PNG is accepted unless loading. */
  lemma TypeExamples(name: string)
    ensures Accepted(false, Some([File(name, "text/plain")])).None?
    ensures Accepted(false, Some([File(name, "image/png")])) == Some(File(name, "image/png"))
    ensures Accepted(true, Some([File(name, "image/png")])).None?
  {
    assert "text/plain"[..|ImagePrefix|] != ImagePrefix by {
      assert "text/plain"[0] == 't';
    }
    assert "image/png"[..|ImagePrefix|] == ImagePrefix;
  }

  class Uploader {
    /** Whether a drag is over the drop zone (styles the border). */
    var isDragging: bool

    constructor ()
      ensures !isDragging
    {
      isDragging := false;
    }

    /** Line 16. */
    method HandleDragEnter()
      modifies this
      ensures isDragging
    {
      isDragging := true;
    }

    /** Line 22. */
    method HandleDragLeave()
      modifies this
      ensures !isDragging
    {
      isDragging := false;
    }

    /** Lines 25-28: only suppresses the browser default; the flag is untouched. */
    method HandleDragOver()
      ensures isDragging == old(isDragging)
    {
    }

    /** Lines 30-42: the flag is cleared first, even when the drop is then ignored
        because an analysis is loading. */
    method HandleDrop(files: Option<seq<File>>, isLoading: bool) returns (selected: Option<File>)
      modifies this
      ensures !isDragging
      ensures selected == Accepted(isLoading, files)
    {
      isDragging := false;
      selected := None;
      if isLoading {
        return;
      }
      if files.Some? && |files.value| > 0 {
        if JsString.StartsWith(files.value[0].mimeType, ImagePrefix) {
          selected := Some(files.value[0]);
        }
      }
    }

    /** Lines 44-52: the same gate for the hidden file input; the flag is untouched. */
    method HandleFileChange(files: Option<seq<File>>, isLoading: bool) returns (selected: Option<File>)
      ensures selected == Accepted(isLoading, files)
    {
      selected := None;
      if isLoading {
        return;
      }
      if files.Some? && |files.value| > 0 {
        if JsString.StartsWith(files.value[0].mimeType, ImagePrefix) {
          selected := Some(files.value[0]);
        }
      }
    }
  }
}
