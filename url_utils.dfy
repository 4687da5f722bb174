// The URL helper: public URLs of uploaded files, built from the API base
// URL, and the way back from such a URL to the stored relative path.
module UrlUtils {
  import opened Common
  import opened Strings

  /** `getApiBaseUrl`: the configured base, else localhost on the
      configured port, else on 3001. */
  function ApiBaseUrl(apiBaseUrl: Option<string>, port: Option<string>): (r: string)
    ensures TruthyStr(apiBaseUrl) ==> r == apiBaseUrl.value
    ensures !TruthyStr(apiBaseUrl) ==> StartsWith(r, "http://localhost:")
  {
    OrElse(apiBaseUrl, "http://localhost:" + OrElse(port, "3001"))
  }

  predicate IsHttpUrl(s: string)
  {
    StartsWith(s, "http://") || StartsWith(s, "https://")
  }

  /** `replace(/\/$/, '')`: one trailing '/' goes. */
  function DropTrailingSlash(s: string): (r: string)
    ensures s == r || s == r + "/"
    ensures s != [] && s[|s| - 1] == '/' ==> s == r + "/"
  {
    if s != [] && s[|s| - 1] == '/' then s[..|s| - 1] else s
  }

  /** `replace(/^\//, '')`: one leading '/' goes. */
  function DropLeadingSlash(s: string): (r: string)
    ensures s == r || s == "/" + r
    ensures s != [] && s[0] == '/' ==> s == "/" + r
  {
    if s != [] && s[0] == '/' then s[1..] else s
  }

  function UploadsPrefix(baseUrl: string): string
  {
    baseUrl + "/uploads/"
  }

  /** `getFileUrl` (and `getImageUrl`, `getDocumentUrl`, which return it):
      nothing for a missing or blank path, a full http(s) URL unchanged,
      otherwise the base without its trailing '/', "/uploads/" and the path
      without its leading '/'. */
  function GetFileUrl(baseUrl: string, relativePath: Option<string>): (r: Option<string>)
    ensures r.None? <==> relativePath.None? || Trim(relativePath.value) == ""
    ensures r.Some? && IsHttpUrl(relativePath.value) ==> r.value == relativePath.value
    ensures r.Some? && !IsHttpUrl(relativePath.value) ==>
      r.value == UploadsPrefix(DropTrailingSlash(baseUrl)) + DropLeadingSlash(relativePath.value)
  {
    if !TruthyStr(relativePath) || Trim(relativePath.value) == "" then None
    else
      var p := relativePath.value;
      if IsHttpUrl(p) then Some(p)
      else Some(DropTrailingSlash(baseUrl) + "/uploads/" + DropLeadingSlash(p))
  }

  /** `extractRelativePath` as written: the prefix it removes is built from
      the base as configured, trailing '/' included. */
  function ExtractRelativePath(baseUrl: string, url: string): (r: string)
    ensures StartsWith(url, UploadsPrefix(baseUrl)) ==> url == UploadsPrefix(baseUrl) + r
    ensures !StartsWith(url, UploadsPrefix(baseUrl)) ==> r == url
  {
    if url == "" then url
    else
      var prefix := UploadsPrefix(baseUrl);
      if StartsWith(url, prefix) then url[|prefix|..] else url
  }

  /** `isLocalUploadUrl`. */
  predicate IsLocalUploadUrl(baseUrl: string, url: string)
  {
    url != "" && StartsWith(url, UploadsPrefix(baseUrl))
  }

  /** The two halves agree: a URL is local exactly when extracting its
      relative path removes something. */
  lemma LocalIffExtracted(baseUrl: string, url: string)
    ensures IsLocalUploadUrl(baseUrl, url) <==> ExtractRelativePath(baseUrl, url) != url
  {
    if IsLocalUploadUrl(baseUrl, url) {
      assert |ExtractRelativePath(baseUrl, url)| < |url|;
    }
  }

  /** Round trip: for a base without a trailing '/', the relative path of
      the URL built for a non-blank, non-http(s) path without a leading '/'
      is that path, and the URL is local. */
  lemma FileUrlRoundTrip(baseUrl: string, p: string)
    requires baseUrl == [] || baseUrl[|baseUrl| - 1] != '/'
    requires Trim(p) != "" && !IsHttpUrl(p)
    requires p[0] != '/'
    ensures GetFileUrl(baseUrl, Some(p)).Some?
    ensures ExtractRelativePath(baseUrl, GetFileUrl(baseUrl, Some(p)).value) == p
    ensures IsLocalUploadUrl(baseUrl, GetFileUrl(baseUrl, Some(p)).value)
  {
    var url := GetFileUrl(baseUrl, Some(p)).value;
    assert url == UploadsPrefix(baseUrl) + p;
    assert url[|UploadsPrefix(baseUrl)|..] == p;
  }

  /** With a configured base that ends in '/', the URL `getFileUrl` builds
      is not recognised by `extractRelativePath` or `isLocalUploadUrl`,
      while the normalised extraction recovers the path. */
  lemma TrailingSlashBreaksRoundTrip(host: string, p: string)
    requires Trim(p) != "" && !IsHttpUrl(p)
    requires p[0] != '/'
    ensures GetFileUrl(host + "/", Some(p)) == Some(host + "/uploads/" + p)
    ensures ExtractRelativePath(host + "/", host + "/uploads/" + p) == host + "/uploads/" + p
    ensures !IsLocalUploadUrl(host + "/", host + "/uploads/" + p)
    ensures ExtractUploadPath(host + "/", host + "/uploads/" + p) == p
  {
    var url := host + "/uploads/" + p;
    assert DropTrailingSlash(host + "/") == host;
    assert !StartsWith(url, UploadsPrefix(host + "/")) by {
      assert UploadsPrefix(host + "/")[|host| + 1] == '/';
      assert url[|host| + 1] == 'u';
    }
    UploadPathRoundTrip(host + "/", p);
  }

  /** `extractRelativePath` with the base normalised the way `getFileUrl`
      normalises it. */
  function ExtractUploadPath(baseUrl: string, url: string): (r: string)
    ensures StartsWith(url, UploadsPrefix(DropTrailingSlash(baseUrl))) ==>
      url == UploadsPrefix(DropTrailingSlash(baseUrl)) + r
    ensures !StartsWith(url, UploadsPrefix(DropTrailingSlash(baseUrl))) ==> r == url
  {
    ExtractRelativePath(DropTrailingSlash(baseUrl), url)
  }

  /** With the normalised base, the round trip holds for every base. */
  lemma UploadPathRoundTrip(baseUrl: string, p: string)
    requires Trim(p) != "" && !IsHttpUrl(p)
    requires p[0] != '/'
    ensures GetFileUrl(baseUrl, Some(p)).Some?
    ensures ExtractUploadPath(baseUrl, GetFileUrl(baseUrl, Some(p)).value) == p
  {
    var b := DropTrailingSlash(baseUrl);
    var url := GetFileUrl(baseUrl, Some(p)).value;
    assert url == UploadsPrefix(b) + p;
    assert url[|UploadsPrefix(b)|..] == p;
  }
}
