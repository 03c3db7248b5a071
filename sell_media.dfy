/**
 * The media picker of the sell form: which chosen files are attached to a
 * new listing, with their previews, and how one is taken off again.
 */
module SellMedia {
  import opened Maybe
  import opened JsText

  /** A chosen file: its MIME type and its size in bytes. */
  datatype MediaFile = MediaFile(mimeType: string, size: nat)

  /** The data-URL preview of a file; the file reader is taken to return it
      at once and in the order the files were chosen. */
  datatype Preview = DataUrl(file: MediaFile)

  const MaxFiles: nat := 10
  const MaxImageSize: nat := 5 * 1024 * 1024
  const MaxVideoSize: nat := 50 * 1024 * 1024

  const TooManyFiles: string := "Maximum 10 files allowed"
  const WrongType: string := "Please select only image or video files"
  const ImageTooLarge: string := "Image files must be less than 5MB"
  const VideoTooLarge: string := "Video files must be less than 50MB"

  predicate IsImage(f: MediaFile) {
    StartsWith(f.mimeType, "image/")
  }

  predicate IsVideo(f: MediaFile) {
    StartsWith(f.mimeType, "video/")
  }

  /** No MIME type starts with both `image/` and `video/`, so each file
      meets at most one of the two size checks. */
  lemma ImageVideoExclusive(f: MediaFile)
    ensures !(IsImage(f) && IsVideo(f))
  {
    if IsImage(f) {
      assert f.mimeType[0] == "image/"[0];
    }
  }

  /** The per-file checks, in order: type, then image size, then video
      size. `None` means the file is taken. This specifies what the
      per-file callback, `CheckFile` below, decides for one file. */
  function Rejection(f: MediaFile): (e: Option<string>)
    ensures e == None <==> (IsImage(f) && f.size <= MaxImageSize) || (IsVideo(f) && f.size <= MaxVideoSize)
    ensures e == Some(WrongType) <==> !IsImage(f) && !IsVideo(f)
    ensures e == Some(ImageTooLarge) <==> IsImage(f) && f.size > MaxImageSize
    ensures e == Some(VideoTooLarge) <==> IsVideo(f) && f.size > MaxVideoSize
  {
    assert IsImage(f) ==> f.mimeType[0] == 'i';
    assert IsVideo(f) ==> f.mimeType[0] == 'v';
    if !IsImage(f) && !IsVideo(f) then Some(WrongType)
    else if IsImage(f) && f.size > MaxImageSize then Some(ImageTooLarge)
    else if IsVideo(f) && f.size > MaxVideoSize then Some(VideoTooLarge)
    else None
  }

  /** The files of a batch that pass the checks, in the order given. */
  function Accepted(s: seq<MediaFile>): (r: seq<MediaFile>)
    ensures |r| <= |s|
    ensures forall i :: 0 <= i < |r| ==> Rejection(r[i]) == None
  {
    if s == [] then []
    else Accepted(s[..|s| - 1]) + (if Rejection(s[|s| - 1]) == None then [s[|s| - 1]] else [])
  }

  /** The error message left by the per-file checks of a batch: that of the
      last file rejected, or `prior` when none is. */
  function LastRejection(s: seq<MediaFile>, prior: string): (msg: string)
    ensures msg == prior || exists i :: 0 <= i < |s| && Rejection(s[i]) == Some(msg)
  {
    if s == [] then prior
    else match Rejection(s[|s| - 1])
      case Some(m) => m
      case None => LastRejection(s[..|s| - 1], prior)
  }

  /** The error left is the message of the last rejected file: the one
      rejected at `i` when every file after it is taken. */
  lemma {:induction false} LastRejectionIsLast(s: seq<MediaFile>, prior: string, i: nat)
    requires i < |s| && Rejection(s[i]) != None
    requires forall j :: i < j < |s| ==> Rejection(s[j]) == None
    ensures Rejection(s[i]) == Some(LastRejection(s, prior))
    decreases |s|
  {
    if i < |s| - 1 {
      var init := s[..|s| - 1];
      assert init[i] == s[i];
      forall j | i < j < |init| ensures Rejection(init[j]) == None {
        assert init[j] == s[j];
      }
      LastRejectionIsLast(init, prior, i);
    }
  }

  /** With no file rejected, the prior error stays. */
  lemma {:induction false} LastRejectionNone(s: seq<MediaFile>, prior: string)
    requires forall i :: 0 <= i < |s| ==> Rejection(s[i]) == None
    ensures LastRejection(s, prior) == prior
    decreases |s|
  {
    if s != [] {
      var init := s[..|s| - 1];
      forall i | 0 <= i < |init| ensures Rejection(init[i]) == None {
        assert init[i] == s[i];
      }
      LastRejectionNone(init, prior);
    }
  }

  function PreviewsOf(s: seq<MediaFile>): (p: seq<Preview>)
    ensures |p| == |s| && forall i :: 0 <= i < |s| ==> p[i] == DataUrl(s[i])
  {
    seq(|s|, i requires 0 <= i < |s| => DataUrl(s[i]))
  }

  /** Accepting a batch is accepting its parts one after the other. */
  lemma {:induction false} AcceptedConcat(s: seq<MediaFile>, t: seq<MediaFile>)
    ensures Accepted(s + t) == Accepted(s) + Accepted(t)
    decreases |t|
  {
    if t == [] {
      assert s + t == s;
    } else {
      var t' := t[..|t| - 1];
      assert (s + t)[..|s + t| - 1] == s + t';
      AcceptedConcat(s, t');
    }
  }

  /** Every file that passes the checks is accepted. */
  lemma {:induction false} AcceptedKeepsPassing(s: seq<MediaFile>, i: nat)
    requires i < |s| && Rejection(s[i]) == None
    ensures s[i] in Accepted(s)
    decreases |s|
  {
    if i < |s| - 1 {
      AcceptedKeepsPassing(s[..|s| - 1], i);
    }
  }

  /** A batch whose files all pass is taken whole. */
  lemma {:induction false} AcceptedAllPass(s: seq<MediaFile>)
    requires forall i :: 0 <= i < |s| ==> Rejection(s[i]) == None
    ensures Accepted(s) == s
    decreases |s|
  {
    if s != [] {
      AcceptedAllPass(s[..|s| - 1]);
      assert s == s[..|s| - 1] + [s[|s| - 1]];
    }
  }

  /** A batch with a file taken is one where the per-file checks let
      something through. */
  lemma {:induction false} AcceptedNonEmptyIff(s: seq<MediaFile>)
    ensures Accepted(s) != [] <==> exists i :: 0 <= i < |s| && Rejection(s[i]) == None
    decreases |s|
  {
    if s != [] {
      var init := s[..|s| - 1];
      AcceptedNonEmptyIff(init);
      if exists i :: 0 <= i < |init| && Rejection(init[i]) == None {
        var i :| 0 <= i < |init| && Rejection(init[i]) == None;
        assert s[i] == init[i];
      }
      if exists i :: 0 <= i < |s| && Rejection(s[i]) == None {
        var i :| 0 <= i < |s| && Rejection(s[i]) == None;
        if i < |s| - 1 { assert init[i] == s[i]; }
      }
    }
  }

  /** `removeMedia(index)` on one of the two lists: `filter((_, i) => i !== index)`. */
  function DropIndex<T>(s: seq<T>, index: int): (r: seq<T>)
    ensures 0 <= index < |s| ==> |r| == |s| - 1
    ensures 0 <= index < |s| ==> forall j :: 0 <= j < index ==> r[j] == s[j]
    ensures 0 <= index < |s| ==> forall j :: index <= j < |r| ==> r[j] == s[j + 1]
    ensures !(0 <= index < |s|) ==> r == s
  {
    if 0 <= index < |s| then s[..index] + s[index + 1..] else s
  }

  /** The preview of one more file goes at the end. */
  lemma PreviewsAppend(s: seq<MediaFile>, f: MediaFile)
    ensures PreviewsOf(s + [f]) == PreviewsOf(s) + [DataUrl(f)]
  {
    assert PreviewsOf(s + [f])[|s|] == DataUrl(f);
  }

  /** One more file of the batch: it is appended when it passes, and its
      message, when it fails, replaces the error so far. */
  lemma AcceptedStep(s: seq<MediaFile>, i: nat, prior: string)
    requires i < |s|
    ensures Accepted(s[..i + 1]) == Accepted(s[..i]) + (if Rejection(s[i]) == None then [s[i]] else [])
    ensures LastRejection(s[..i + 1], prior) ==
      if Rejection(s[i]).Some? then Rejection(s[i]).value else LastRejection(s[..i], prior)
  {
    assert s[..i + 1][..i] == s[..i];
  }

  /** What the form keeps attached: at most ten files, each of which passed
      the checks, and one preview per file, in the same order. */
  ghost predicate Attached(files: seq<MediaFile>, previews: seq<Preview>) {
    && |files| <= MaxFiles
    && (forall i :: 0 <= i < |files| ==> Rejection(files[i]) == None)
    && |previews| == |files|
    && forall i :: 0 <= i < |files| ==> previews[i] == DataUrl(files[i])
  }

  /** Appending the accepted part of a batch that fits under the cap keeps
      the form's files and previews attached. */
  lemma AttachAccepted(files: seq<MediaFile>, previews: seq<Preview>, batch: seq<MediaFile>)
    requires Attached(files, previews) && |files| + |batch| <= MaxFiles
    ensures Attached(files + Accepted(batch), previews + PreviewsOf(Accepted(batch)))
  {
    var a := Accepted(batch);
    var p := PreviewsOf(a);
    forall i | 0 <= i < |files + a|
      ensures Rejection((files + a)[i]) == None && (previews + p)[i] == DataUrl((files + a)[i])
    {
      if i < |files| {
        assert (files + a)[i] == files[i] && (previews + p)[i] == previews[i];
      } else {
        assert (files + a)[i] == a[i - |files|] && (previews + p)[i] == p[i - |files|];
      }
    }
  }

  /** Dropping the same index from both lists keeps them attached. */
  lemma DetachIndex(files: seq<MediaFile>, previews: seq<Preview>, index: int)
    requires Attached(files, previews)
    ensures Attached(DropIndex(files, index), DropIndex(previews, index))
  {
    var f := DropIndex(files, index);
    var p := DropIndex(previews, index);
    if 0 <= index < |files| {
      forall j | 0 <= j < |f| ensures Rejection(f[j]) == None && p[j] == DataUrl(f[j]) {
        if j >= index { assert f[j] == files[j + 1] && p[j] == previews[j + 1]; }
      }
    }
  }

  /** The checks the per-file callback makes, in its order; `Some` carries
      the message it sets before returning early. */
  method CheckFile(file: MediaFile) returns (rejection: Option<string>)
    ensures rejection == Rejection(file)
  {
    var isImage := StartsWith(file.mimeType, "image/");
    var isVideo := StartsWith(file.mimeType, "video/");
    if !isImage && !isVideo {
      return Some(WrongType);
    }
    if isImage && file.size > MaxImageSize {
      return Some(ImageTooLarge);
    }
    if isVideo && file.size > MaxVideoSize {
      return Some(VideoTooLarge);
    }
    return None;
  }

  /** The form's `mediaFiles`, `mediaPreviews` and `error` state. */
  class MediaForm {
    var files: seq<MediaFile>
    var previews: seq<Preview>
    var error: string

    ghost predicate Valid()
      reads this
    {
      Attached(files, previews)
    }

    constructor ()
      ensures Valid() && files == [] && previews == [] && error == ""
    {
      files, previews, error := [], [], "";
    }

    /** `handleMediaChange` for the chosen `incoming` files. */
    method HandleMediaChange(incoming: seq<MediaFile>)
      requires Valid()
      modifies this
      ensures Valid()
      ensures |old(files)| + |incoming| > MaxFiles ==>
        files == old(files) && previews == old(previews) && error == TooManyFiles
      ensures |old(files)| + |incoming| <= MaxFiles ==>
        && files == old(files) + Accepted(incoming)
        && previews == old(previews) + PreviewsOf(Accepted(incoming))
        && error == if Accepted(incoming) != [] then "" else LastRejection(incoming, old(error))
    {
      if |files| + |incoming| > MaxFiles {
        error := TooManyFiles;
        return;
      }
      var validFiles: seq<MediaFile> := [];
      var newPreviews: seq<Preview> := [];
      for i := 0 to |incoming|
        invariant validFiles == Accepted(incoming[..i])
        invariant newPreviews == PreviewsOf(validFiles)
        invariant error == LastRejection(incoming[..i], old(error))
        invariant files == old(files) && previews == old(previews)
      {
        var file := incoming[i];
        AcceptedStep(incoming, i, old(error));
        var rejection := CheckFile(file);
        match rejection {
          case Some(message) =>
            error := message;
          case None =>
            PreviewsAppend(validFiles, file);
            validFiles := validFiles + [file];
            newPreviews := newPreviews + [DataUrl(file)];
        }
      }
      assert incoming[..|incoming|] == incoming;
      AttachAccepted(files, previews, incoming);
      files := files + validFiles;
      previews := previews + newPreviews;
      if |validFiles| > 0 {
        error := "";
      }
    }

    /** `removeMedia(index)`: one index goes from both lists at once. */
    method RemoveMedia(index: int)
      requires Valid()
      modifies this
      ensures Valid()
      ensures files == DropIndex(old(files), index)
      ensures previews == DropIndex(old(previews), index)
      ensures error == old(error)
    {
      DetachIndex(files, previews, index);
      files := DropIndex(files, index);
      previews := DropIndex(previews, index);
    }
  }
}
