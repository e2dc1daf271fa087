/**
 * Local file paths and URLs of uploaded files: the public directory under
 * the working directory, the uploads directory inside it, the public URL of
 * a stored file, and Windows separators turned into '/'.
 */
module FileUtils {
  import opened Wrappers
  import opened Text
  import Redirects

  /** `path.join` of plain segments, without its normalisation. */
  function PathJoin(a: string, b: string): string {
    a + "/" + b
  }

  /** `getPublicPath()` for the working directory `cwd`. */
  function PublicPath(cwd: string): string {
    PathJoin(cwd, "public")
  }

  /** `getUploadPath()`: the uploads directory inside the public one. */
  function UploadPath(cwd: string): (p: string)
    ensures StartsWith(p, PublicPath(cwd) + "/")
    ensures p == cwd + "/public/uploads"
  {
    var p := PathJoin(PublicPath(cwd), "uploads");
    assert p[..|PublicPath(cwd) + "/"|] == PublicPath(cwd) + "/";
    p
  }

  /** `getPublicUrl(fileName)`: the URL under which the public directory serves an upload. */
  function PublicUrl(fileName: string): (u: string)
    ensures StartsWith(u, "/uploads/")
    ensures u[|"/uploads/"|..] == fileName
  {
    var u := "/uploads/" + fileName;
    assert u[..|"/uploads/"|] == "/uploads/";
    u
  }

  /**
   * Public upload URLs are covered by the matcher, so a request without a
   * token is sent to sign in before the middleware runs; for a signed-in
   * request the middleware's '/uploads/' rule lets the URL through without
   * any of the redirect rules.
   */
  lemma PublicUrlPasses(fileName: string, token: Option<Redirects.User>)
    ensures Redirects.Matched(PublicUrl(fileName))
    ensures Redirects.Middleware(PublicUrl(fileName), token) == Redirects.Proceed
    ensures Redirects.EdgeGate(PublicUrl(fileName), token) ==
      if token.None? then Redirects.SignInRequired else Redirects.Handled(Redirects.Proceed)
  {
    Redirects.UploadsAreMatched(fileName);
  }

  /** `normalizeFilePath(path)`: every backslash replaced by '/'. */
  function NormalizeFilePath(path: string): (r: string)
    ensures |r| == |path|
    ensures Lacks(r, '\\')
    ensures forall i :: 0 <= i < |path| && path[i] != '\\' ==> r[i] == path[i]
    ensures forall i :: 0 <= i < |path| && path[i] == '\\' ==> r[i] == '/'
  {
    ReplaceChar(path, '\\', '/')
  }

  /** Normalising twice is normalising once. */
  lemma NormalizeIdempotent(path: string)
    ensures NormalizeFilePath(NormalizeFilePath(path)) == NormalizeFilePath(path)
  {
    var once := NormalizeFilePath(path);
    var twice := NormalizeFilePath(once);
    assert forall i :: 0 <= i < |once| ==> twice[i] == once[i];
  }

  /** A path without backslashes is already normal. */
  lemma NormalizeKeepsPosix(path: string)
    requires Lacks(path, '\\')
    ensures NormalizeFilePath(path) == path
  {
    var r := NormalizeFilePath(path);
    assert forall i :: 0 <= i < |path| ==> r[i] == path[i];
  }
}
