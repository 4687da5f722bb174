// The download service: the file name sanitiser, the header values a
// download sets, and the order in which it sets them on the response.
module FileDownload {
  import opened Common
  import opened Strings
  import opened FilePaths

  /** A character Node's `setHeader` accepts in a header value: tab, the
      visible ASCII range with space, and 0x80-0xFF. */
  predicate HeaderChar(c: char)
  {
    c == '\t' || (' ' <= c <= '~') || ('\U{0080}' <= c <= '\U{00FF}')
  }

  predicate HeaderValue(s: string)
  {
    forall i :: 0 <= i < |s| ==> HeaderChar(s[i])
  }

  /** A file name that can sit between the quotes of the `filename`
      parameter (section 4.1 of RFC 6266, a quoted-string of RFC 7230
      section 3.2.6): header characters only, with no '"' and no '\'. */
  predicate QuotableName(s: string)
  {
    forall i :: 0 <= i < |s| ==> HeaderChar(s[i]) && s[i] != '"' && s[i] != '\\'
  }

  /** `sanitizeFileName` as written: `replace(/[^\w\s.-]/gi, '_')`, which
      keeps every white-space character, line breaks included. */
  function SanitizeFileName(fileName: string): (r: string)
    ensures |r| == |fileName|
    ensures forall i :: 0 <= i < |r| ==>
      r[i] == (if IsWordChar(fileName[i]) || IsSpace(fileName[i]) || fileName[i] == '.' || fileName[i] == '-'
               then fileName[i] else '_')
    ensures forall i :: 0 <= i < |r| ==> r[i] != '"' && r[i] != '\\'
  {
    seq(|fileName|, i requires 0 <= i < |fileName| =>
      var c := fileName[i];
      if IsWordChar(c) || IsSpace(c) || c == '.' || c == '-' then c else '_')
  }

  lemma SanitizeFileNameIdempotent(fileName: string)
    ensures SanitizeFileName(SanitizeFileName(fileName)) == SanitizeFileName(fileName)
  {
  }

  /** The sanitiser with the one white-space character a header value can
      carry, the space: everything outside word characters, ' ', '.' and
      '-' becomes '_'. */
  function SanitizeHeaderFileName(fileName: string): (r: string)
    ensures |r| == |fileName|
    ensures forall i :: 0 <= i < |r| ==>
      r[i] == (if IsWordChar(fileName[i]) || fileName[i] == ' ' || fileName[i] == '.' || fileName[i] == '-'
               then fileName[i] else '_')
  {
    seq(|fileName|, i requires 0 <= i < |fileName| =>
      var c := fileName[i];
      if IsWordChar(c) || c == ' ' || c == '.' || c == '-' then c else '_')
  }

  /** The corrected sanitiser always yields a name that fits the quoted
      `filename` parameter, and sanitising twice changes nothing more. */
  lemma SanitizeHeaderFileNameQuotable(fileName: string)
    ensures QuotableName(SanitizeHeaderFileName(fileName))
    ensures SanitizeHeaderFileName(SanitizeHeaderFileName(fileName)) == SanitizeHeaderFileName(fileName)
  {
  }

  /** On names whose only white space is ' ', both sanitisers agree. */
  lemma SanitizersAgree(fileName: string)
    requires forall i :: 0 <= i < |fileName| ==> IsSpace(fileName[i]) ==> fileName[i] == ' '
    ensures SanitizeHeaderFileName(fileName) == SanitizeFileName(fileName)
  {
  }

  function DispositionType(asAttachment: bool): string
  {
    if asAttachment then "attachment" else "inline"
  }

  /** The `Content-Disposition` value as written, with `sanitizeFileName`. */
  function DispositionAsWritten(asAttachment: bool, fileName: string): string
  {
    DispositionType(asAttachment) + "; filename=\"" + SanitizeFileName(fileName) + "\""
  }

  /** The `Content-Disposition` value the model sets: the disposition type,
      then the sanitised name between quotes. */
  function Disposition(asAttachment: bool, fileName: string): (r: string)
    ensures StartsWith(r, "attachment;") <==> asAttachment
    ensures HeaderValue(r)
    ensures var prefix := DispositionType(asAttachment) + "; filename=\"";
      |r| == |prefix| + |fileName| + 1 && r[..|prefix|] == prefix && r[|r| - 1] == '"'
      && r[|prefix|..|r| - 1] == SanitizeHeaderFileName(fileName)
      && QuotableName(r[|prefix|..|r| - 1])
  {
    var prefix := DispositionType(asAttachment) + "; filename=\"";
    var name := SanitizeHeaderFileName(fileName);
    SanitizeHeaderFileNameQuotable(fileName);
    var r := prefix + name + "\"";
    assert r[..|prefix|] == prefix;
    assert r[|prefix|..|r| - 1] == name;
    assert !asAttachment ==> r[0] == 'i';
    assert HeaderValue(r) by {
      forall i | 0 <= i < |r| ensures HeaderChar(r[i]) {
        if i >= |prefix| && i < |r| - 1 {
          assert r[i] == name[i - |prefix|];
        }
      }
    }
    r
  }

  /** A name with a line break passes `sanitizeFileName` untouched, so the
      disposition value it builds is not a valid header value and
      `setHeader` throws; the corrected sanitiser turns the line break
      into '_'. */
  lemma SanitizeKeepsLineBreaks()
    ensures SanitizeFileName("a\r\nb.pdf") == "a\r\nb.pdf"
    ensures !HeaderValue(DispositionAsWritten(true, "a\r\nb.pdf"))
    ensures SanitizeHeaderFileName("a\r\nb.pdf") == "a__b.pdf"
  {
    var d := DispositionAsWritten(true, "a\r\nb.pdf");
    var prefix := "attachment; filename=\"";
    assert SanitizeFileName("a\r\nb.pdf") == "a\r\nb.pdf";
    assert d == prefix + "a\r\nb.pdf" + "\"";
    assert d[|prefix| + 1] == '\r';
  }

  /** What `fs.statSync` reports of a file: its size and its
      `mtime.toUTCString()`. */
  datatype FileStat = FileStat(size: nat, mtime: string)

  datatype FileDownloadOptions = FileDownloadOptions(
    filePath: string,
    downloadName: Option<string>,
    mimeType: Option<string>,
    asAttachment: Option<bool>)

  /** `downloadName || path.basename(resolvedPath)`. */
  function DownloadName(resolvedPath: string, options: FileDownloadOptions): string
  {
    OrElse(options.downloadName, Basename(resolvedPath))
  }

  /** `mimeType || this.getMimeType(resolvedPath)`. */
  function ContentType(resolvedPath: string, options: FileDownloadOptions): string
  {
    OrElse(options.mimeType, MimeType(resolvedPath))
  }

  /** The five `setHeader` calls of a download, in order, with the given
      `Content-Disposition` value. */
  function DownloadSteps(resolvedPath: string, stat: FileStat, options: FileDownloadOptions, disposition: string)
    : seq<(string, string)>
  {
    SendSteps(stat, ContentType(resolvedPath, options), disposition)
  }

  /** The calls as written: the disposition carries `sanitizeFileName`. */
  function AsWrittenSteps(resolvedPath: string, stat: FileStat, options: FileDownloadOptions): seq<(string, string)>
  {
    DownloadSteps(resolvedPath, stat, options,
                  DispositionAsWritten(Coalesce(options.asAttachment, true), DownloadName(resolvedPath, options)))
  }

  /** The calls with the corrected sanitiser. */
  function CheckedSteps(resolvedPath: string, stat: FileStat, options: FileDownloadOptions): seq<(string, string)>
  {
    DownloadSteps(resolvedPath, stat, options,
                  Disposition(Coalesce(options.asAttachment, true), DownloadName(resolvedPath, options)))
  }

  /** Every header of `steps` written, in order. */
  function SetAll(headers: map<string, string>, steps: seq<(string, string)>): map<string, string>
    decreases |steps|
  {
    if steps == [] then headers else SetAll(headers[steps[0].0 := steps[0].1], steps[1..])
  }

  /** Node's `setHeader` one call after another: a value that is not a
      valid header value throws, so the headers set so far stay and the
      rest are never set; the flag tells whether every call went through. */
  function HeadersSet(headers: map<string, string>, steps: seq<(string, string)>): (map<string, string>, bool)
    decreases |steps|
  {
    if steps == [] then (headers, true)
    else if !HeaderValue(steps[0].1) then (headers, false)
    else HeadersSet(headers[steps[0].0 := steps[0].1], steps[1..])
  }

  /** Every call goes through exactly when every value is a header value,
      and then every header is written. */
  lemma {:induction false} HeadersSetAll(headers: map<string, string>, steps: seq<(string, string)>)
    ensures HeadersSet(headers, steps).1 <==> forall i :: 0 <= i < |steps| ==> HeaderValue(steps[i].1)
    ensures HeadersSet(headers, steps).1 ==> HeadersSet(headers, steps).0 == SetAll(headers, steps)
    decreases |steps|
  {
    if steps != [] && HeaderValue(steps[0].1) {
      HeadersSetAll(headers[steps[0].0 := steps[0].1], steps[1..]);
      assert forall i :: 1 <= i < |steps| ==> steps[i] == steps[1..][i - 1];
    }
  }

  /** The first value that is not a header value stops the calls: the
      headers before it are written and the call fails. */
  lemma {:induction false} HeadersSetStops(headers: map<string, string>, steps: seq<(string, string)>, k: nat)
    requires k < |steps| && !HeaderValue(steps[k].1)
    requires forall i :: 0 <= i < k ==> HeaderValue(steps[i].1)
    ensures HeadersSet(headers, steps) == (SetAll(headers, steps[..k]), false)
    decreases k
  {
    if k > 0 {
      HeadersSetStops(headers[steps[0].0 := steps[0].1], steps[1..], k - 1);
      assert steps[..k][1..] == steps[1..][..k - 1];
    }
  }

  /** One call of the remaining ones: it throws on a value that is not a
      header value, otherwise it writes its header and the rest follow. */
  lemma HeadersSetAt(headers: map<string, string>, steps: seq<(string, string)>, k: nat)
    requires k < |steps|
    ensures HeadersSet(headers, steps[k..])
         == if !HeaderValue(steps[k].1) then (headers, false)
            else HeadersSet(headers[steps[k].0 := steps[k].1], steps[k + 1..])
  {
    assert steps[k..][0] == steps[k];
    assert steps[k..][1..] == steps[k + 1..];
  }

  /** Five calls all go through exactly when each of the five values is a
      header value. */
  lemma FiveValues(steps: seq<(string, string)>)
    requires |steps| == 5
    ensures (forall i :: 0 <= i < |steps| ==> HeaderValue(steps[i].1))
        <==> HeaderValue(steps[0].1) && HeaderValue(steps[1].1) && HeaderValue(steps[2].1)
             && HeaderValue(steps[3].1) && HeaderValue(steps[4].1)
  {
    if HeaderValue(steps[0].1) && HeaderValue(steps[1].1) && HeaderValue(steps[2].1)
       && HeaderValue(steps[3].1) && HeaderValue(steps[4].1) {
      forall i | 0 <= i < |steps| ensures HeaderValue(steps[i].1) {
        if i == 0 {} else if i == 1 {} else if i == 2 {} else if i == 3 {} else {}
      }
    }
  }

  /** The fixed `Cache-Control` value is a header value. */
  lemma CacheControlIsHeaderValue()
    ensures HeaderValue("private, max-age=3600")
  {
    var s := "private, max-age=3600";
    forall i | 0 <= i < |s| ensures HeaderChar(s[i]) {
      assert ' ' <= s[i] <= '~';
    }
  }

  /** The decimal text of a size is a header value. */
  lemma DigitsAreHeaderValue(n: nat)
    ensures HeaderValue(NatToString(n))
  {
    var s := NatToString(n);
    forall i | 0 <= i < |s| ensures HeaderChar(s[i]) {
      assert IsDigit(s[i]);
    }
  }

  /** The five calls go through exactly when the content type, the
      disposition and the modification time are header values: the length
      and the cache policy always are. */
  lemma SendStepsGoThrough(headers: map<string, string>, stat: FileStat, contentType: string, disposition: string)
    ensures HeadersSet(headers, SendSteps(stat, contentType, disposition)).1
        <==> HeaderValue(contentType) && HeaderValue(disposition) && HeaderValue(stat.mtime)
  {
    var steps := SendSteps(stat, contentType, disposition);
    DigitsAreHeaderValue(stat.size);
    CacheControlIsHeaderValue();
    HeadersSetAll(headers, steps);
    FiveValues(steps);
  }

  /** The header values a download chooses: the content type defaults to
      the MIME type of the resolved path, the disposition is `attachment`
      unless `asAttachment` is false, the length is the decimal size; and
      every header is set exactly when the content type, the disposition as
      written and the modification time are valid header values. */
  lemma DownloadHeaderChoices(resolvedPath: string, stat: FileStat, options: FileDownloadOptions)
    ensures var steps := AsWrittenSteps(resolvedPath, stat, options);
      (HeadersSet(map[], steps).1 <==>
         HeaderValue(ContentType(resolvedPath, options)) && HeaderValue(steps[2].1) && HeaderValue(stat.mtime))
      && (!TruthyStr(options.mimeType) ==> steps[0].1 == MimeType(resolvedPath))
      && (TruthyStr(options.mimeType) ==> steps[0].1 == options.mimeType.value)
      && (StartsWith(steps[2].1, "attachment;") <==> options.asAttachment != Some(false))
      && DigitsValue(steps[1].1) == stat.size
      && (HeadersSet(map[], steps).1 ==>
            HeadersSet(map[], steps).0.Keys
              == {"Content-Type", "Content-Length", "Content-Disposition", "Cache-Control", "Last-Modified"})
  {
    var asAttachment := Coalesce(options.asAttachment, true);
    var d := DispositionAsWritten(asAttachment, DownloadName(resolvedPath, options));
    var steps := AsWrittenSteps(resolvedPath, stat, options);
    assert steps == SendSteps(stat, ContentType(resolvedPath, options), d);
    SendStepsGoThrough(map[], stat, ContentType(resolvedPath, options), d);
    DigitsValueOfNatToString(stat.size);
    AttachmentPrefix(asAttachment, DownloadName(resolvedPath, options));
    HeadersSetAll(map[], steps);
    SetAllKeys(map[], steps);
  }

  /** The disposition as written starts with "attachment;" exactly when
      the download is an attachment. */
  lemma AttachmentPrefix(asAttachment: bool, fileName: string)
    ensures StartsWith(DispositionAsWritten(asAttachment, fileName), "attachment;") <==> asAttachment
  {
    var d := DispositionAsWritten(asAttachment, fileName);
    assert d == DispositionType(asAttachment) + "; filename=\"" + SanitizeFileName(fileName) + "\"";
    assert !asAttachment ==> d[0] == 'i';
    assert asAttachment ==> d[..11] == "attachment;";
  }

  /** Writing one more of the remaining headers. */
  lemma SetAllAt(headers: map<string, string>, steps: seq<(string, string)>, k: nat)
    requires k < |steps|
    ensures SetAll(headers, steps[k..]) == SetAll(headers[steps[k].0 := steps[k].1], steps[k + 1..])
  {
    assert steps[k..][0] == steps[k];
    assert steps[k..][1..] == steps[k + 1..];
  }

  /** Writing the five headers of a download gives exactly their five
      names on top of those already there. */
  lemma SetAllKeys(headers: map<string, string>, steps: seq<(string, string)>)
    requires |steps| == 5
    ensures SetAll(headers, steps).Keys == headers.Keys + {steps[0].0, steps[1].0, steps[2].0, steps[3].0, steps[4].0}
  {
    var h1 := headers[steps[0].0 := steps[0].1];
    var h2 := h1[steps[1].0 := steps[1].1];
    var h3 := h2[steps[2].0 := steps[2].1];
    var h4 := h3[steps[3].0 := steps[3].1];
    var h5 := h4[steps[4].0 := steps[4].1];
    assert steps[0..] == steps;
    SetAllAt(headers, steps, 0);
    SetAllAt(h1, steps, 1);
    SetAllAt(h2, steps, 2);
    SetAllAt(h3, steps, 3);
    SetAllAt(h4, steps, 4);
    assert steps[5..] == [];
  }

  /** A download name with a line break, under a valid content type: the
      written service sets the type and the length and then `setHeader`
      throws on the disposition, so nothing else is set. */
  lemma LineBreakNameStopsAfterTwoHeaders(resolvedPath: string, stat: FileStat, options: FileDownloadOptions)
    requires options.downloadName == Some("a\r\nb.pdf")
    requires HeaderValue(ContentType(resolvedPath, options))
    ensures HeadersSet(map[], AsWrittenSteps(resolvedPath, stat, options))
         == (map["Content-Type" := ContentType(resolvedPath, options)]["Content-Length" := NatToString(stat.size)],
             false)
  {
    var asAttachment := Coalesce(options.asAttachment, true);
    assert DownloadName(resolvedPath, options) == "a\r\nb.pdf";
    LineBreakDispositionInvalid(asAttachment);
    DispositionStopsAfterTwoHeaders(stat, ContentType(resolvedPath, options),
                                    DispositionAsWritten(asAttachment, "a\r\nb.pdf"));
  }

  /** A valid content type and an invalid disposition: the type and the
      length are set, and the disposition stops the calls. */
  lemma DispositionStopsAfterTwoHeaders(stat: FileStat, contentType: string, disposition: string)
    requires HeaderValue(contentType) && !HeaderValue(disposition)
    ensures HeadersSet(map[], SendSteps(stat, contentType, disposition))
         == (map["Content-Type" := contentType]["Content-Length" := NatToString(stat.size)], false)
  {
    var steps := SendSteps(stat, contentType, disposition);
    DigitsAreHeaderValue(stat.size);
    HeadersSetStops(map[], steps, 2);
    var t := steps[..2];
    assert t[0..] == t && t[2..] == [];
    SetAllAt(map[], t, 0);
    SetAllAt(map[t[0].0 := t[0].1], t, 1);
  }

  /** The disposition as written for a name with a line break is not a
      header value. */
  lemma LineBreakDispositionInvalid(asAttachment: bool)
    ensures !HeaderValue(DispositionAsWritten(asAttachment, "a\r\nb.pdf"))
  {
    var d := DispositionAsWritten(asAttachment, "a\r\nb.pdf");
    assert SanitizeFileName("a\r\nb.pdf") == "a\r\nb.pdf";
    var prefix := DispositionType(asAttachment) + "; filename=\"";
    assert d == prefix + "a\r\nb.pdf" + "\"";
    assert d[|prefix| + 1] == '\r';
  }

  /** With the corrected sanitiser the disposition never stops the calls:
      only an invalid content type or modification time can. */
  lemma CheckedDispositionNeverStops(headers: map<string, string>, resolvedPath: string, stat: FileStat,
                                     options: FileDownloadOptions)
    ensures HeadersSet(headers, CheckedSteps(resolvedPath, stat, options)).1
        <==> HeaderValue(ContentType(resolvedPath, options)) && HeaderValue(stat.mtime)
  {
    var d := Disposition(Coalesce(options.asAttachment, true), DownloadName(resolvedPath, options));
    assert CheckedSteps(resolvedPath, stat, options) == SendSteps(stat, ContentType(resolvedPath, options), d);
    SendStepsGoThrough(headers, stat, ContentType(resolvedPath, options), d);
  }

  /** The download name, when none is given, is the basename of the
      resolved path, through the written sanitiser. */
  lemma DefaultDownloadName(resolvedPath: string, stat: FileStat, options: FileDownloadOptions)
    requires !TruthyStr(options.downloadName)
    ensures AsWrittenSteps(resolvedPath, stat, options)[2].1
         == DispositionAsWritten(options.asAttachment != Some(false), Basename(resolvedPath))
  {
    assert Coalesce(options.asAttachment, true) == (options.asAttachment != Some(false));
  }

  /** The HTTP response a download writes to: its headers and the file
      streamed into its body, if any. */
  class Response {
    var headers: map<string, string>
    var streamed: Option<string>

    constructor()
      ensures headers == map[] && streamed == None
    {
      headers := map[];
      streamed := None;
    }

    /** `res.setHeader`: a value that is not a valid header value throws
        and leaves the headers as they were. */
    method SetHeader(name: string, value: string) returns (ok: bool)
      modifies this
      ensures ok == HeaderValue(value)
      ensures ok ==> headers == old(headers)[name := value]
      ensures !ok ==> headers == old(headers)
      ensures streamed == old(streamed)
    {
      ok := HeaderValue(value);
      if ok {
        headers := headers[name := value];
      }
    }

    /** The five `setHeader` calls of a download and, when all of them go
        through, the file streamed into the body. */
    method Send(resolvedPath: string, stats: FileStat, contentType: string, disposition: string)
      returns (ok: bool)
      modifies this
      ensures (headers, ok) == HeadersSet(old(headers), SendSteps(stats, contentType, disposition))
      ensures ok ==> streamed == Some(resolvedPath)
      ensures !ok ==> streamed == old(streamed)
    {
      ghost var steps := SendSteps(stats, contentType, disposition);
      assert steps[0..] == steps;
      HeadersSetAt(headers, steps, 0);
      ok := SetHeader("Content-Type", contentType);
      if !ok { return; }
      HeadersSetAt(headers, steps, 1);
      ok := SetHeader("Content-Length", NatToString(stats.size));
      if !ok { return; }
      HeadersSetAt(headers, steps, 2);
      ok := SetHeader("Content-Disposition", disposition);
      if !ok { return; }
      HeadersSetAt(headers, steps, 3);
      ok := SetHeader("Cache-Control", "private, max-age=3600");
      if !ok { return; }
      HeadersSetAt(headers, steps, 4);
      ok := SetHeader("Last-Modified", stats.mtime);
      if !ok { return; }
      assert steps[5..] == [];
      streamed := Some(resolvedPath);
    }
  }

  /** The header calls of `Send`, in order. */
  function SendSteps(stats: FileStat, contentType: string, disposition: string): seq<(string, string)>
  {
    [("Content-Type", contentType), ("Content-Length", NatToString(stats.size)),
     ("Content-Disposition", disposition), ("Cache-Control", "private, max-age=3600"),
     ("Last-Modified", stats.mtime)]
  }

  /** `downloadFile` as written: a missing file raises NotFound before any
      header is set; otherwise the headers are set one by one, and the
      first value `setHeader` rejects ends the request with an internal
      error, the headers before it set and nothing streamed. */
  method DownloadFile(res: Response, uploadDir: string, files: map<string, FileStat>, options: FileDownloadOptions)
    returns (r: Result<string>)
    modifies res
    ensures var resolved := ResolveFilePath(uploadDir, options.filePath);
      if resolved !in files then
        r == Err(NotFound) && res.headers == old(res.headers) && res.streamed == old(res.streamed)
      else
        var (headers, ok) := HeadersSet(old(res.headers), AsWrittenSteps(resolved, files[resolved], options));
        res.headers == headers
        && (ok ==> r == Ok(resolved) && res.streamed == Some(resolved))
        && (!ok ==> r.Err? && r.error.Internal? && res.streamed == old(res.streamed))
  {
    var asAttachment := Coalesce(options.asAttachment, true);
    var resolvedPath := ResolveFilePath(uploadDir, options.filePath);
    if resolvedPath !in files {
      return Err(NotFound);
    }
    var stats := files[resolvedPath];
    var fileName := OrElse(options.downloadName, Basename(resolvedPath));
    var contentType := OrElse(options.mimeType, MimeType(resolvedPath));
    var ok;
    if asAttachment {
      ok := res.Send(resolvedPath, stats, contentType, DispositionAsWritten(true, fileName));
    } else {
      ok := res.Send(resolvedPath, stats, contentType, DispositionAsWritten(false, fileName));
    }
    if !ok {
      return Err(Internal("setHeader"));
    }
    r := Ok(resolvedPath);
  }

  /** `downloadFile` with the corrected sanitiser: the disposition is
      always a valid header value, so only the content type or the
      modification time can end the request early. */
  method DownloadFileChecked(res: Response, uploadDir: string, files: map<string, FileStat>,
                             options: FileDownloadOptions)
    returns (r: Result<string>)
    modifies res
    ensures var resolved := ResolveFilePath(uploadDir, options.filePath);
      if resolved !in files then
        r == Err(NotFound) && res.headers == old(res.headers) && res.streamed == old(res.streamed)
      else
        var (headers, ok) := HeadersSet(old(res.headers), CheckedSteps(resolved, files[resolved], options));
        res.headers == headers
        && (ok <==> HeaderValue(ContentType(resolved, options)) && HeaderValue(files[resolved].mtime))
        && (ok ==> r == Ok(resolved) && res.streamed == Some(resolved))
        && (!ok ==> r.Err? && r.error.Internal? && res.streamed == old(res.streamed))
  {
    var resolvedPath := ResolveFilePath(uploadDir, options.filePath);
    if resolvedPath !in files {
      return Err(NotFound);
    }
    var stats := files[resolvedPath];
    var disposition := Disposition(Coalesce(options.asAttachment, true), DownloadName(resolvedPath, options));
    var ok := res.Send(resolvedPath, stats, ContentType(resolvedPath, options), disposition);
    CheckedDispositionNeverStops(old(res.headers), resolvedPath, stats, options);
    if !ok {
      return Err(Internal("setHeader"));
    }
    r := Ok(resolvedPath);
  }

  /** `fileExists`. */
  function FileExists(uploadDir: string, files: map<string, FileStat>, filePath: string): (r: bool)
    ensures r <==> ResolveFilePath(uploadDir, filePath) in files
  {
    ResolveFilePath(uploadDir, filePath) in files
  }

  datatype FileInfo = FileInfo(size: nat, mtime: string, extension: string)

  /** `getFileInfo`: null for a missing file, else its size, time and
      lowercased extension. */
  function GetFileInfo(uploadDir: string, files: map<string, FileStat>, filePath: string): (r: Option<FileInfo>)
    ensures r.None? <==> !FileExists(uploadDir, files, filePath)
    ensures r.Some? ==>
      (r.value.extension == ToLower(Extname(ResolveFilePath(uploadDir, filePath)))
       && r.value.size == files[ResolveFilePath(uploadDir, filePath)].size
       && r.value.mtime == files[ResolveFilePath(uploadDir, filePath)].mtime)
  {
    var resolved := ResolveFilePath(uploadDir, filePath);
    if !FileExists(uploadDir, files, filePath) then None
    else Some(FileInfo(files[resolved].size, files[resolved].mtime, ToLower(Extname(resolved))))
  }
}
