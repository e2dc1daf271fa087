/**
 * Cloud-storage naming and the download route: an uploaded file is stored
 * under "folder/timestamp-random-base.ext" and published at
 * "https://storage.googleapis.com/bucket/path"; the download route takes such
 * a URL apart again to find the stored path.
 */
module Storage {
  import opened Wrappers
  import opened Text

  /** The bucket of the storage configuration, also written into the download route. */
  const BucketName: string := "study-kit-uploads"
  const StorageHost: string := "storage.googleapis.com"
  /** The folder `uploadFile` uses when none is given. */
  const DefaultFolder: string := "uploads"

  // ---------------------------------------------------------------------------
  // uploadFile / uploadFiles

  /** A file handed to the upload service: its name and MIME type. */
  datatype UploadedFile = UploadedFile(name: string, mimeType: string)

  /**
   * The values `uploadFile` draws from outside: the clock, the random text,
   * and the name split by the path module into a base name and an extension.
   */
  datatype Naming = Naming(timestamp: nat, random: string, baseName: string, extension: string)

  datatype UploadResult = UploadResult(fileName: string, fileUrl: string, fileType: string, gcsPath: string)

  /** `${timestamp}-${randomString}-${baseName}${fileExtension}`. */
  function ObjectName(n: Naming): string {
    NatToString(n.timestamp) + "-" + n.random + "-" + n.baseName + n.extension
  }

  /** `${folder}/${fileName}`. */
  function GcsPath(folder: string, objectName: string): string {
    folder + "/" + objectName
  }

  /** `https://storage.googleapis.com/${bucketName}/${gcsPath}`. */
  function FileUrl(bucket: string, gcsPath: string): string {
    "https://" + StorageHost + "/" + bucket + "/" + gcsPath
  }

  /**
   * `uploadFile` once the object is stored: the result keeps the file's own
   * name and type, the stored path is the folder and the generated name, and
   * the URL points at that path in the bucket.
   */
  function UploadFile(file: UploadedFile, folder: string, n: Naming): (r: UploadResult)
    ensures r.fileName == file.name && r.fileType == file.mimeType
    ensures r.gcsPath == folder + "/" + ObjectName(n)
    ensures r.fileUrl == "https://" + StorageHost + "/" + BucketName + "/" + r.gcsPath
  {
    var gcsPath := GcsPath(folder, ObjectName(n));
    UploadResult(file.name, FileUrl(BucketName, gcsPath), file.mimeType, gcsPath)
  }

  /** `uploadFiles`: one result per file, in the order of the files; file k is named by `naming(k)`. */
  function UploadFiles(files: seq<UploadedFile>, folder: string, naming: nat -> Naming): (r: seq<UploadResult>)
    ensures |r| == |files|
    ensures forall k :: 0 <= k < |files| ==> r[k] == UploadFile(files[k], folder, naming(k))
  {
    seq(|files|, k requires 0 <= k < |files| => UploadFile(files[k], folder, naming(k)))
  }

  /**
   * The folder an upload goes to: the one given, or the default when the
   * form field is missing or '' (the `|| 'uploads'` of the upload route and
   * the default parameter of `uploadFile` and `uploadFiles`).
   */
  function ChosenFolder(field: Option<string>): (f: string)
    ensures f != ""
    ensures field.Some? && field.value != "" ==> f == field.value
    ensures field.None? || field.value == "" ==> f == DefaultFolder
  {
    if field.Some? && field.value != "" then field.value else DefaultFolder
  }

  /** The stored name starts with the timestamp's digits followed by '-'. */
  lemma ObjectNameStartsWithTimestamp(n: Naming)
    ensures var name := ObjectName(n); var t := NatToString(n.timestamp);
      |name| > |t| && name[..|t|] == t && name[|t|] == '-' &&
      ParseIntPrefix(name) == Some(n.timestamp)
  {
    var t := NatToString(n.timestamp);
    var name := ObjectName(n);
    var tail := "-" + n.random + "-" + n.baseName + n.extension;
    assert name == t + tail;
    ParseIntDigitsThen(t, tail);
  }

  /** parseInt stops at the first character that is not a digit. */
  lemma ParseIntDigitsThen(t: string, tail: string)
    requires |t| > 0 && AllDigits(t) && |tail| > 0 && !IsDigit(tail[0])
    ensures ParseIntPrefix(t + tail) == Some(DigitsValue(t))
  {
    var s := t + tail;
    assert s[0] == t[0] && IsDigit(s[0]);
    ParseIntDigitStart(s);
    DigitRunPrefix(t, tail);
    assert s[..|t|] == t;
  }

  /** The digit run of digits followed by a non-digit is exactly the digits. */
  lemma {:induction false} DigitRunPrefix(t: string, tail: string)
    requires AllDigits(t) && |tail| > 0 && !IsDigit(tail[0])
    ensures DigitRun(t + tail) == |t|
    decreases |t|
  {
    if |t| > 0 {
      assert (t + tail)[1..] == t[1..] + tail;
      DigitRunPrefix(t[1..], tail);
    } else {
      assert t + tail == tail;
    }
  }

  // ---------------------------------------------------------------------------
  // The download route

  /** What the route answers: a status with its message, or a redirect to the signed URL of a path. */
  datatype Response = Status(code: nat, message: string) | SignedRedirect(gcsPath: string)

  /** `parts.findIndex(part => part === x)`, None for -1. */
  function FindIndex(parts: seq<string>, x: string): (r: Option<nat>)
    ensures r.None? <==> x !in parts
    ensures r.Some? ==> r.value < |parts| && parts[r.value] == x && x !in parts[..r.value]
  {
    if |parts| == 0 then None
    else if parts[0] == x then Some(0)
    else
      match FindIndex(parts[1..], x)
      case None => None
      case Some(k) =>
        assert parts[..k + 1] == [parts[0]] + parts[1..][..k];
        Some(k + 1)
  }

  /**
   * `GET /api/download` with the decoded `fileUrl` parameter ('' when it is
   * absent): 401 without a session, 400 without a URL, 410 for a URL that is
   * not a storage URL, 400 when no segment names the bucket, and otherwise a
   * redirect for the segments after the bucket joined by '/'.
   */
  function Download(hasSession: bool, fileUrl: string): (r: Response)
    ensures !hasSession ==> r == Status(401, "Unauthorized")
    ensures hasSession && fileUrl == "" ==> r == Status(400, "File URL is required")
    ensures hasSession && fileUrl != "" && !Contains(fileUrl, StorageHost) ==> r.Status? && r.code == 410
    ensures hasSession && fileUrl != "" && Contains(fileUrl, StorageHost) ==>
      (r == Status(400, "Invalid GCS URL") <==> BucketName !in Split(fileUrl, "/"))
  {
    if !hasSession then Status(401, "Unauthorized")
    else if fileUrl == "" then Status(400, "File URL is required")
    else if Contains(fileUrl, StorageHost) then
      var urlParts := Split(fileUrl, "/");
      match FindIndex(urlParts, BucketName)
      case None => Status(400, "Invalid GCS URL")
      case Some(bucketIndex) => SignedRedirect(Join(urlParts[bucketIndex + 1..], "/"))
    else Status(410, "Legacy file downloads not supported. Please re-upload files.")
  }

  /** A text without '/' is one segment in front of the rest. */
  lemma SlashSegment(a: string, rest: string)
    requires Lacks(a, '/')
    ensures Split(a + "/" + rest, "/") == [a] + Split(rest, "/")
  {
    LacksNoOccurrence(a, "/", rest);
    SplitCons(a, "/", rest);
  }

  /** The segments joined by '/' in front of `rest`. */
  function SlashPrefixed(segments: seq<string>, rest: string): string {
    if |segments| == 0 then rest else segments[0] + "/" + SlashPrefixed(segments[1..], rest)
  }

  /** Segments free of '/' put in front of the rest are split off again, in order. */
  lemma {:induction false} SplitSlashPrefixed(segments: seq<string>, rest: string)
    requires forall i :: 0 <= i < |segments| ==> Lacks(segments[i], '/')
    ensures Split(SlashPrefixed(segments, rest), "/") == segments + Split(rest, "/")
    decreases |segments|
  {
    if |segments| > 0 {
      var tail := SlashPrefixed(segments[1..], rest);
      SplitSlashPrefixed(segments[1..], rest);
      SlashSegment(segments[0], tail);
      assert segments == [segments[0]] + segments[1..];
    }
  }

  /** The segments of a storage URL: scheme, empty, host, bucket, then the path's own. */
  lemma UrlSegments(bucket: string, gcsPath: string)
    requires Lacks(bucket, '/')
    ensures Split(FileUrl(bucket, gcsPath), "/") == ["https:", "", StorageHost, bucket] + Split(gcsPath, "/")
  {
    var segments := ["https:", "", StorageHost, bucket];
    var r3 := bucket + "/" + gcsPath;
    var r2 := StorageHost + "/" + r3;
    var r1 := "" + "/" + r2;
    assert SlashPrefixed(segments[3..], gcsPath) == r3;
    assert SlashPrefixed(segments[2..], gcsPath) == r2;
    assert SlashPrefixed(segments[1..], gcsPath) == r1;
    assert FileUrl(bucket, gcsPath) == SlashPrefixed(segments, gcsPath) by {
      assert "https://" + StorageHost + "/" + bucket + "/" + gcsPath == "https://" + r2;
      assert r1 == "/" + r2;
    }
    assert Lacks("https:", '/');
    assert Lacks(StorageHost, '/');
    SplitSlashPrefixed(segments, gcsPath);
  }

  /** A storage URL contains the storage host. */
  lemma UrlNamesHost(bucket: string, gcsPath: string)
    ensures Contains(FileUrl(bucket, gcsPath), StorageHost)
  {
    var url := FileUrl(bucket, gcsPath);
    var tail := "/" + bucket + "/" + gcsPath;
    assert url == "https://" + StorageHost + tail;
    assert url[8..8 + |StorageHost|] == StorageHost;
    assert OccursAt(url, StorageHost, 8);
  }

  /** findIndex stops at the first match. */
  lemma FindIndexAt(parts: seq<string>, x: string, i: nat)
    requires i < |parts| && parts[i] == x && x !in parts[..i]
    ensures FindIndex(parts, x) == Some(i)
  {
    assert x in parts;
  }

  /** In a storage URL of the configured bucket, the bucket is found as the fourth segment. */
  lemma BucketIsFourth(rest: seq<string>)
    ensures FindIndex(["https:", "", StorageHost, BucketName] + rest, BucketName) == Some(3)
  {
    var parts := ["https:", "", StorageHost, BucketName] + rest;
    assert |"https:"| != |BucketName| && |StorageHost| != |BucketName|;
    assert parts[..3] == ["https:", "", StorageHost];
    FindIndexAt(parts, BucketName, 3);
  }

  /**
   * The download route finds again the path of every URL the upload service
   * publishes: the bucket is the fourth segment, and joining what follows
   * gives the stored path back.
   */
  lemma DownloadRoundTrip(gcsPath: string)
    ensures Download(true, FileUrl(BucketName, gcsPath)) == SignedRedirect(gcsPath)
  {
    var url := FileUrl(BucketName, gcsPath);
    assert url != "" by { assert url[0] == 'h'; }
    UrlNamesHost(BucketName, gcsPath);
    assert Lacks(BucketName, '/');
    UrlSegments(BucketName, gcsPath);
    var rest := Split(gcsPath, "/");
    var parts := Split(url, "/");
    assert parts == ["https:", "", StorageHost, BucketName] + rest;
    BucketIsFourth(rest);
    assert parts[4..] == rest;
    JoinSplit(gcsPath, "/");
  }

  /** Every uploaded file can be downloaded through its URL. */
  lemma UploadThenDownload(file: UploadedFile, folder: string, n: Naming)
    ensures Download(true, UploadFile(file, folder, n).fileUrl) == SignedRedirect(UploadFile(file, folder, n).gcsPath)
  {
    DownloadRoundTrip(UploadFile(file, folder, n).gcsPath);
  }
}
