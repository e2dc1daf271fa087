/**
 * The checks the two upload widgets make before a file leaves the browser:
 * the general file picker (a size limit and an `accept` list of extensions
 * and MIME patterns, checked file by file) and the profile-image picker (an
 * image MIME type and a 5 MB limit).
 */
module Uploads {
  import opened Wrappers
  import opened Text

  /** A picked file: its name, its size in bytes and its MIME type ('' when unknown). */
  datatype FileInfo = FileInfo(name: string, size: nat, mimeType: string)

  const MiB: nat := 1024 * 1024

  // ---------------------------------------------------------------------------
  // The accept list

  /** The last element of a split. */
  function Last(parts: seq<string>): string
    requires |parts| > 0
  {
    parts[|parts| - 1]
  }

  /** `'.' + name.split('.').pop()`: the text after the last '.', or the whole name. */
  function FileExtension(name: string): string {
    "." + Last(Split(name, "."))
  }

  /** `accept.split(',').map(type => type.trim())`. */
  function AcceptedTypes(accept: string): (r: seq<string>)
    ensures |r| == |Split(accept, ",")|
    ensures forall k :: 0 <= k < |r| ==> r[k] == Trim(Split(accept, ",")[k])
  {
    var parts := Split(accept, ",");
    seq(|parts|, k requires 0 <= k < |parts| => Trim(parts[k]))
  }

  /**
   * One entry of the accept list against a file: '.ext' compares extensions
   * ignoring case, a wildcard entry such as 'image/' followed by '*' is a
   * MIME prefix, and anything else an exact MIME type.
   */
  predicate EntryMatches(entry: string, fileType: string, fileExtension: string) {
    if StartsWith(entry, ".") then ToLower(fileExtension) == ToLower(entry)
    else if EndsWith(entry, "/*") then StartsWith(fileType, entry[..|entry| - 2])
    else fileType == entry
  }

  /** `acceptedTypes.some(...)`. */
  predicate AnyEntryMatches(acceptedTypes: seq<string>, fileType: string, fileExtension: string) {
    exists k :: 0 <= k < |acceptedTypes| && EntryMatches(acceptedTypes[k], fileType, fileExtension)
  }

  /** The type check of one file: '*' accepts anything, otherwise some entry must match. */
  predicate TypeAccepted(accept: string, file: FileInfo) {
    accept == "*" || AnyEntryMatches(AcceptedTypes(accept), file.mimeType, FileExtension(file.name))
  }

  function TooLargeMessage(file: FileInfo, maxSize: nat): string {
    "File " + file.name + " is too large. Maximum size is " + NatToString(maxSize) + "MB"
  }

  function NotAcceptedMessage(file: FileInfo): string {
    "File " + file.name + " is not an accepted file type"
  }

  /** The error one file raises, the size being checked before the type. */
  function FileError(file: FileInfo, maxSize: nat, accept: string): (r: Option<string>)
    ensures r.None? <==> file.size <= maxSize * MiB && TypeAccepted(accept, file)
    ensures file.size > maxSize * MiB ==> r == Some(TooLargeMessage(file, maxSize))
    ensures file.size <= maxSize * MiB && !TypeAccepted(accept, file) ==> r == Some(NotAcceptedMessage(file))
  {
    if file.size > maxSize * MiB then Some(TooLargeMessage(file, maxSize))
    else if !TypeAccepted(accept, file) then Some(NotAcceptedMessage(file))
    else None
  }

  /** A file that raises no error. */
  predicate Passes(file: FileInfo, maxSize: nat, accept: string) {
    FileError(file, maxSize, accept).None?
  }

  /** The index of the first file at or after `p` that fails, if any. */
  function FirstFailing(files: seq<FileInfo>, maxSize: nat, accept: string, p: nat): (r: Option<nat>)
    requires p <= |files|
    ensures r.None? <==> forall i :: p <= i < |files| ==> Passes(files[i], maxSize, accept)
    ensures r.Some? ==> p <= r.value < |files| && !Passes(files[r.value], maxSize, accept)
    ensures r.Some? ==> forall i :: p <= i < r.value ==> Passes(files[i], maxSize, accept)
    decreases |files| - p
  {
    if p == |files| then None
    else if !Passes(files[p], maxSize, accept) then Some(p)
    else FirstFailing(files, maxSize, accept, p + 1)
  }

  /** With accept '*' only the size is checked. */
  lemma StarSkipsTypes(file: FileInfo, maxSize: nat)
    ensures FileError(file, maxSize, "*").None? <==> file.size <= maxSize * MiB
  {
  }

  /** The extension is the text after the last '.'. */
  lemma {:induction false} ExtensionAfterLastDot(base: string, ext: string)
    requires Lacks(ext, '.')
    ensures FileExtension(base + "." + ext) == "." + ext
    decreases |base|
  {
    var s := base + "." + ext;
    assert OccursAt(s, ".", |base|);
    var k := IndexOf(s, ".").value;
    var rest := s[k + 1..];
    if k == |base| {
      assert rest == ext;
      LacksNotContains(ext, ".");
      SplitNone(ext, ".");
    } else {
      assert rest == base[k + 1..] + "." + ext;
      ExtensionAfterLastDot(base[k + 1..], ext);
    }
    assert Split(s, ".") == [s[..k]] + Split(rest, ".");
  }

  /** A name without '.' is its own extension, after the dot. */
  lemma ExtensionWithoutDot(name: string)
    requires Lacks(name, '.')
    ensures FileExtension(name) == "." + name
  {
    LacksNotContains(name, ".");
    SplitNone(name, ".");
  }

  /** A wildcard entry, x followed by '/' and '*', accepts exactly the MIME types starting with x. */
  lemma WildcardEntry(major: string, fileType: string, fileExtension: string)
    requires !StartsWith(major, ".")
    ensures EntryMatches(major + "/*", fileType, fileExtension) <==> StartsWith(fileType, major)
  {
    var entry := major + "/*";
    assert entry[..|entry| - 2] == major;
    assert EndsWith(entry, "/*");
    assert !StartsWith(entry, ".") by {
      if |major| > 0 {
        assert entry[..1] == major[..1];
      } else {
        assert entry[..1] == "/";
      }
    }
  }

  // ---------------------------------------------------------------------------
  // The file picker

  /** The file picker's state: its settings, the error shown, and what it handed on. */
  class FilePicker {
    const maxSize: nat
    const accept: string
    var error: string
    var loading: bool
    /** Every file list passed to `onFileSelect`, oldest first. */
    var selected: seq<seq<FileInfo>>

    constructor (maxSize: nat, accept: string)
      ensures this.maxSize == maxSize && this.accept == accept
      ensures error == "" && !loading && selected == []
    {
      this.maxSize := maxSize;
      this.accept := accept;
      error := "";
      loading := false;
      selected := [];
    }

    /**
     * `validateFiles`: stops at the first file that is too large or not
     * accepted, shows its error and answers false; true when every file passes.
     */
    method ValidateFiles(files: seq<FileInfo>) returns (ok: bool)
      modifies this`error
      ensures ok <==> FirstFailing(files, maxSize, accept, 0).None?
      ensures ok ==> error == old(error)
      ensures !ok ==> error == FileError(files[FirstFailing(files, maxSize, accept, 0).value], maxSize, accept).value
    {
      var i := 0;
      while i < |files|
        invariant 0 <= i <= |files|
        invariant forall j :: 0 <= j < i ==> Passes(files[j], maxSize, accept)
        invariant error == old(error)
      {
        var file := files[i];
        if file.size > maxSize * MiB {
          error := TooLargeMessage(file, maxSize);
          FirstFailingAt(files, maxSize, accept, 0, i);
          return false;
        }
        if accept != "*" {
          var acceptedTypes := AcceptedTypes(accept);
          var fileType := file.mimeType;
          var fileExtension := FileExtension(file.name);
          var isAccepted := AnyEntryMatches(acceptedTypes, fileType, fileExtension);
          if !isAccepted {
            error := NotAcceptedMessage(file);
            FirstFailingAt(files, maxSize, accept, 0, i);
            return false;
          }
        }
        i := i + 1;
      }
      return true;
    }

    /**
     * `handleFiles`: nothing for a missing or empty list; otherwise the error
     * is cleared, the files validated, and handed on only when they pass.
     */
    method HandleFiles(files: Option<seq<FileInfo>>)
      modifies this
      ensures (files.None? || |files.value| == 0) ==>
        error == old(error) && loading == old(loading) && selected == old(selected)
      ensures files.Some? && |files.value| > 0 ==>
        !loading &&
        error == (match FirstFailing(files.value, maxSize, accept, 0)
                  case None => ""
                  case Some(k) => FileError(files.value[k], maxSize, accept).value) &&
        selected == (if FirstFailing(files.value, maxSize, accept, 0).None? then old(selected) + [files.value] else old(selected))
    {
      if files.None? || |files.value| == 0 {
        return;
      }
      error := "";
      loading := true;
      var ok := ValidateFiles(files.value);
      if ok {
        selected := selected + [files.value];
      }
      loading := false;
    }
  }

  /** If every file from p to i passes except i itself, i is the first failure from p. */
  lemma {:induction false} FirstFailingAt(files: seq<FileInfo>, maxSize: nat, accept: string, p: nat, i: nat)
    requires p <= i < |files| && !Passes(files[i], maxSize, accept)
    requires forall j :: p <= j < i ==> Passes(files[j], maxSize, accept)
    ensures FirstFailing(files, maxSize, accept, p) == Some(i)
    decreases i - p
  {
    if p < i {
      FirstFailingAt(files, maxSize, accept, p + 1, i);
    }
  }

  // ---------------------------------------------------------------------------
  // The profile-image picker

  const ImageLimit: nat := 5 * MiB

  /** What the upload request answers: the URLs of the stored files, or a failure. */
  datatype UploadResponse = Uploaded(fileUrls: seq<string>) | UploadFailed

  /** The guard checks of `handleImageUpload`: the type first, then the size. */
  function ImageError(file: FileInfo): (r: Option<string>)
    ensures r.None? <==> StartsWith(file.mimeType, "image/") && file.size <= ImageLimit
    ensures !StartsWith(file.mimeType, "image/") ==> r == Some("Please upload an image file")
    ensures StartsWith(file.mimeType, "image/") && file.size > ImageLimit ==> r == Some("File size must be less than 5MB")
  {
    if !StartsWith(file.mimeType, "image/") then Some("Please upload an image file")
    else if file.size > ImageLimit then Some("File size must be less than 5MB")
    else None
  }

  /** The profile-image picker's state. */
  class ImagePicker {
    var uploading: bool
    var error: string
    /** The files sent to the upload endpoint. */
    var sent: seq<FileInfo>
    /** Every URL passed to `onUpload`. */
    var uploaded: seq<string>

    constructor ()
      ensures !uploading && error == "" && sent == [] && uploaded == []
    {
      uploading := false;
      error := "";
      sent := [];
      uploaded := [];
    }

    /**
     * `handleImageUpload`: nothing without a file; a failed check shows its
     * error and sends nothing; otherwise the file is sent and the first
     * returned URL handed on, or the failure shown.
     */
    method HandleImageUpload(file: Option<FileInfo>, response: UploadResponse)
      modifies this
      ensures file.None? ==> uploading == old(uploading) && error == old(error) && sent == old(sent) && uploaded == old(uploaded)
      ensures file.Some? && ImageError(file.value).Some? ==>
        error == ImageError(file.value).value && uploading == old(uploading) && sent == old(sent) && uploaded == old(uploaded)
      ensures file.Some? && ImageError(file.value).None? ==>
        !uploading && sent == old(sent) + [file.value] &&
        (response.Uploaded? && |response.fileUrls| > 0 ==> uploaded == old(uploaded) + [response.fileUrls[0]] && error == "") &&
        (!(response.Uploaded? && |response.fileUrls| > 0) ==>
          uploaded == old(uploaded) && error == "Failed to upload image. Please try again.")
    {
      if file.None? {
        return;
      }
      var f := file.value;
      if !StartsWith(f.mimeType, "image/") {
        error := "Please upload an image file";
        return;
      }
      if f.size > 5 * 1024 * 1024 {
        error := "File size must be less than 5MB";
        return;
      }
      uploading := true;
      error := "";
      sent := sent + [f];
      if response.Uploaded? && |response.fileUrls| > 0 {
        uploaded := uploaded + [response.fileUrls[0]];
      } else {
        error := "Failed to upload image. Please try again.";
      }
      uploading := false;
    }
  }
}
