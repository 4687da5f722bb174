// The pieces of Node's `path` module the file services use, on POSIX paths
// ('/' separates directories), and the extension-to-MIME table that the
// upload and the download service each carry.
module FilePaths {
  import opened Common
  import opened Strings

  /** `path.basename(p)`: what follows the last '/'. */
  function Basename(p: string): (r: string)
    ensures '/' !in r
    ensures EndsWith(p, r)
  {
    var k := LastIndexOf(p, '/');
    if k.None? then p else p[k.value + 1..]
  }

  /** The extension of a basename: from its last '.', or "" when it has no
      '.', starts with its only dots, or is "..". */
  function BaseExtension(b: string): (r: string)
    ensures r == [] || (r[0] == '.' && '.' !in r[1..] && EndsWith(b, r))
  {
    var k := LastIndexOf(b, '.');
    if k.None? || k.value == 0 || b == ".." then ""
    else
      assert EndsWith(b, b[k.value..]);
      b[k.value..]
  }

  /** `path.extname(p)`. */
  function Extname(p: string): (r: string)
    ensures r == [] || (r[0] == '.' && '.' !in r[1..] && '/' !in r && EndsWith(p, r))
  {
    BaseExtension(Basename(p))
  }

  /** `path.basename(p, path.extname(p))`: the basename without its
      extension. */
  function Stem(p: string): (r: string)
    ensures Basename(p) == r + Extname(p)
  {
    var b := Basename(p);
    var e := Extname(p);
    assert b == b[..|b| - |e|] + e;
    b[..|b| - |e|]
  }

  /** `path.join(dir, name)` for a directory and a plain name: the empty
      directory adds nothing, and a directory already ending in '/' gets no
      second one. */
  function JoinPath(dir: string, name: string): (r: string)
    ensures EndsWith(r, name)
  {
    if dir == "" then name
    else if dir[|dir| - 1] == '/' then dir + name
    else dir + "/" + name
  }

  /** `path.isAbsolute(p) ? p : path.join(uploadDir, p)`; the `./` and
      `../` forms are joined too, without normalisation. */
  function ResolveFilePath(uploadDir: string, filePath: string): (r: string)
    ensures StartsWith(filePath, "/") ==> r == filePath
    ensures EndsWith(r, filePath)
  {
    if StartsWith(filePath, "/") then filePath else JoinPath(uploadDir, filePath)
  }

  const OctetStream := "application/octet-stream"

  /** The extension table shared by the upload and the download service. */
  const MimeTypes: map<string, string> := map[
    ".pdf" := "application/pdf",
    ".doc" := "application/msword",
    ".docx" := "application/vnd.openxmlformats-officedocument.wordprocessingml.document",
    ".xls" := "application/vnd.ms-excel",
    ".xlsx" := "application/vnd.openxmlformats-officedocument.spreadsheetml.sheet",
    ".ppt" := "application/vnd.ms-powerpoint",
    ".pptx" := "application/vnd.openxmlformats-officedocument.presentationml.presentation",
    ".txt" := "text/plain",
    ".csv" := "text/csv",
    ".json" := "application/json",
    ".xml" := "application/xml",
    ".html" := "text/html",
    ".htm" := "text/html",
    ".jpg" := "image/jpeg",
    ".jpeg" := "image/jpeg",
    ".png" := "image/png",
    ".gif" := "image/gif",
    ".svg" := "image/svg+xml",
    ".zip" := "application/zip",
    ".rar" := "application/x-rar-compressed",
    ".7z" := "application/x-7z-compressed"]

  /** `getMimeType`: the table entry of the lowercased extension, or
      application/octet-stream. */
  function MimeType(p: string): (r: string)
    ensures ToLower(Extname(p)) in MimeTypes ==> r == MimeTypes[ToLower(Extname(p))]
    ensures ToLower(Extname(p)) !in MimeTypes ==> r == OctetStream
  {
    var e := ToLower(Extname(p));
    if e in MimeTypes then MimeTypes[e] else OctetStream
  }

  lemma {:induction false} LastIndexOfLower(s: string, c: char)
    requires !('A' <= c <= 'Z') && !('a' <= c <= 'z')
    ensures LastIndexOf(ToLower(s), c) == LastIndexOf(s, c)
  {
    if s != [] {
      assert ToLower(s)[..|s| - 1] == ToLower(s[..|s| - 1]);
      assert ToLower(s)[|s| - 1] == LowerChar(s[|s| - 1]);
      LastIndexOfLower(s[..|s| - 1], c);
    }
  }

  lemma BasenameLower(p: string)
    ensures Basename(ToLower(p)) == ToLower(Basename(p))
  {
    LastIndexOfLower(p, '/');
    var k := LastIndexOf(p, '/');
    if k.Some? {
      assert ToLower(p)[k.value + 1..] == ToLower(p[k.value + 1..]);
    }
  }

  /** Lowercasing a basename keeps it ".." exactly when it was "..". */
  lemma LowerDotDot(b: string)
    ensures b == ".." <==> ToLower(b) == ".."
  {
    if ToLower(b) == ".." {
      assert LowerChar(b[0]) == '.' && LowerChar(b[1]) == '.';
      assert b == "..";
    }
  }

  lemma BaseExtensionLower(b: string)
    ensures BaseExtension(ToLower(b)) == ToLower(BaseExtension(b))
  {
    var bq := ToLower(b);
    LastIndexOfLower(b, '.');
    LowerDotDot(b);
    var j := LastIndexOf(b, '.');
    if j.Some? && j.value != 0 && b != ".." {
      assert bq[j.value..] == ToLower(b[j.value..]);
    }
  }

  lemma ExtnameLower(p: string)
    ensures Extname(ToLower(p)) == ToLower(Extname(p))
  {
    BasenameLower(p);
    BaseExtensionLower(Basename(p));
  }

  /** The file name's case never changes its MIME type. */
  lemma MimeTypeIgnoresCase(p: string)
    ensures MimeType(ToLower(p)) == MimeType(p)
  {
    ExtnameLower(p);
    ToLowerIdempotent(Extname(p));
  }

  lemma {:induction false} LastIndexOfAppend(a: string, b: string, c: char)
    requires c in b
    ensures LastIndexOf(a + b, c) == Some(|a| + LastIndexOf(b, c).value)
    decreases |b|
  {
    if b[|b| - 1] != c {
      assert (a + b)[..|a + b| - 1] == a + b[..|b| - 1];
      LastIndexOfAppend(a, b[..|b| - 1], c);
    }
  }

  /** A name made of a non-empty stem without '.' or '/' followed by an
      extension has that extension. */
  lemma ExtnameOfStemAndExtension(stem: string, p: string)
    requires stem != [] && '.' !in stem && '/' !in stem
    ensures Extname(stem + Extname(p)) == Extname(p)
  {
    var e := Extname(p);
    var n := stem + e;
    assert '/' !in n;
    assert Basename(n) == n;
    if e == [] {
      assert n == stem;
    } else {
      assert LastIndexOf(e, '.') == Some(0);
      LastIndexOfAppend(stem, e, '.');
      assert n[|stem|..] == e;
      assert n != ".." by {
        assert n[0] == stem[0];
      }
    }
  }
}
