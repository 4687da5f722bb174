// The upload service: the checks an upload must pass, the generated file
// name and its relative path, and the upload directory as a store of files
// (path to size) that an upload writes and a delete removes.
module FileUpload {
  import opened Common
  import opened Strings
  import opened FilePaths

  /** The multipart file as the HTTP layer hands it over. */
  datatype UploadedFile = UploadedFile(originalname: string, size: nat, mimetype: string)

  datatype FileUploadOptions = FileUploadOptions(
    file: Option<UploadedFile>,
    subdirectory: Option<string>,
    customName: Option<string>,
    allowedExtensions: Option<seq<string>>,
    maxSize: Option<int>)

  datatype UploadedFileInfo = UploadedFileInfo(
    originalName: string,
    generatedName: string,
    relativePath: string,
    absolutePath: string,
    size: nat,
    extension: string,
    mimeType: string)

  /** The checks of `uploadFile`, in order: a file must be given; its size
      may not exceed a truthy `maxSize`; its lowercased extension must be in
      a non-empty `allowedExtensions`. On success, the lowercased
      extension. */
  function CheckUpload(options: FileUploadOptions): (r: Result<string>)
    ensures options.file.None? ==> r == Err(BadRequest("file"))
    ensures options.file.Some? && TruthyId(options.maxSize) && options.file.value.size > options.maxSize.value
      ==> r == Err(BadRequest("size"))
    ensures r.Ok? <==>
      options.file.Some?
      && !(TruthyId(options.maxSize) && options.file.value.size > options.maxSize.value)
      && (options.allowedExtensions.None? || options.allowedExtensions.value == []
          || ToLower(Extname(options.file.value.originalname)) in options.allowedExtensions.value)
    ensures r.Ok? ==> r.value == ToLower(Extname(options.file.value.originalname))
    ensures r.Err? ==> r.error.BadRequest?
  {
    if options.file.None? then Err(BadRequest("file"))
    else
      var file := options.file.value;
      if TruthyId(options.maxSize) && file.size > options.maxSize.value then Err(BadRequest("size"))
      else
        var extension := ToLower(Extname(file.originalname));
        if options.allowedExtensions.Some? && |options.allowedExtensions.value| > 0
           && extension !in options.allowedExtensions.value
        then Err(BadRequest("extension"))
        else Ok(extension)
  }

  /** A character the cleaned base name may hold: lowercase ASCII letters,
      digits, '_' and '-'. */
  predicate CleanChar(c: char)
  {
    ('a' <= c <= 'z') || ('0' <= c <= '9') || c == '_' || c == '-'
  }

  /** `replace(/[^\w\s-]/gi, '')`. */
  function KeepNameChars(s: string): (r: string)
    ensures forall i :: 0 <= i < |r| ==> IsWordChar(r[i]) || IsSpace(r[i]) || r[i] == '-'
  {
    var r := Filter(s, c => IsWordChar(c) || IsSpace(c) || c == '-');
    assert forall i :: 0 <= i < |r| ==> r[i] in r;
    r
  }

  /** `replace(/\s+/g, '-')`: every run of white space becomes one '-'. */
  function DashSpaces(s: string): (r: string)
    ensures forall i :: 0 <= i < |r| ==> !IsSpace(r[i])
    ensures NameChars(s) ==> forall i :: 0 <= i < |r| ==> IsWordChar(r[i]) || r[i] == '-'
    decreases |s|
  {
    if s == [] then []
    else if IsSpace(s[0]) then
      NameCharsSuffix(s, |s| - |TrimStart(s[1..])|);
      "-" + DashSpaces(TrimStart(s[1..]))
    else
      NameCharsSuffix(s, 1);
      [s[0]] + DashSpaces(s[1..])
  }

  predicate NameChars(s: string)
  {
    forall i :: 0 <= i < |s| ==> IsWordChar(s[i]) || IsSpace(s[i]) || s[i] == '-'
  }

  lemma NameCharsSuffix(s: string, k: nat)
    requires k <= |s|
    ensures NameChars(s) ==> NameChars(s[k..])
  {
    if NameChars(s) {
      forall i | 0 <= i < |s| - k ensures IsWordChar(s[k..][i]) || IsSpace(s[k..][i]) || s[k..][i] == '-' {
        assert s[k..][i] == s[k + i];
      }
    }
  }

  /** The cleaned base name of a generated file name. */
  function CleanBaseName(s: string): (r: string)
    ensures forall i :: 0 <= i < |r| ==> CleanChar(r[i])
  {
    ToLower(DashSpaces(KeepNameChars(s)))
  }

  /** The name an upload is stored under: `customName` when truthy, else
      the original name without its extension, cleaned; then the time
      stamp, the first eight characters of the uuid and the original
      extension, case kept. */
  function GenerateFileName(originalName: string, customName: Option<string>, timestamp: nat, uuid: string): (r: string)
    ensures EndsWith(r, Extname(originalName))
    ensures |uuid| >= 8 ==>
      (r == CleanBaseName(OrElse(customName, Stem(originalName))) + "-"
            + NatToString(timestamp) + "-" + uuid[..8] + Extname(originalName))
  {
    var extension := Extname(originalName);
    var baseName := OrElse(customName, Stem(originalName));
    var uniqueId := if |uuid| >= 8 then uuid[..8] else uuid;
    CleanBaseName(baseName) + "-" + NatToString(timestamp) + "-" + uniqueId + extension
  }

  /** A name part holding neither '.' nor '/'. */
  predicate Plain(s: string)
  {
    '.' !in s && '/' !in s
  }

  lemma CleanIsPlain(s: string)
    ensures Plain(CleanBaseName(s))
  {
    var r := CleanBaseName(s);
    assert forall i :: 0 <= i < |r| ==> r[i] != '.' && r[i] != '/' by {
      forall i | 0 <= i < |r| ensures r[i] != '.' && r[i] != '/' {
        assert CleanChar(r[i]);
      }
    }
  }

  lemma DigitsArePlain(n: nat)
    ensures Plain(NatToString(n))
  {
    var r := NatToString(n);
    assert forall i :: 0 <= i < |r| ==> r[i] != '.' && r[i] != '/' by {
      forall i | 0 <= i < |r| ensures r[i] != '.' && r[i] != '/' {
        assert IsDigit(r[i]);
      }
    }
  }

  /** The generated name keeps the original extension (so its MIME type),
      whenever the uuid holds no '.' or '/' (a v4 uuid holds hex digits and
      '-' only). */
  lemma GeneratedNameKeepsExtension(originalName: string, customName: Option<string>, timestamp: nat, uuid: string)
    requires Plain(uuid)
    ensures Extname(GenerateFileName(originalName, customName, timestamp, uuid)) == Extname(originalName)
    ensures MimeType(GenerateFileName(originalName, customName, timestamp, uuid)) == MimeType(originalName)
  {
    var clean := CleanBaseName(OrElse(customName, Stem(originalName)));
    var uniqueId := if |uuid| >= 8 then uuid[..8] else uuid;
    assert Plain(uniqueId) by {
      if |uuid| >= 8 {
        assert forall x :: x in uuid[..8] ==> x in uuid;
      }
    }
    CleanIsPlain(OrElse(customName, Stem(originalName)));
    DigitsArePlain(timestamp);
    var stem := clean + "-" + NatToString(timestamp) + "-" + uniqueId;
    assert Plain(stem);
    assert GenerateFileName(originalName, customName, timestamp, uuid) == stem + Extname(originalName);
    ExtnameOfStemAndExtension(stem, originalName);
  }

  /** `path.join(subdirectory, fileName).replace(/\\/g, '/')`. */
  function RelativePath(subdirectory: string, fileName: string): (r: string)
    ensures '\\' !in r
    ensures |r| == |JoinPath(subdirectory, fileName)|
  {
    ReplaceAll(JoinPath(subdirectory, fileName), '\\', '/')
  }

  /** What a successful upload reports. */
  function UploadInfo(uploadDir: string, options: FileUploadOptions, extension: string, timestamp: nat, uuid: string): UploadedFileInfo
    requires options.file.Some?
  {
    var file := options.file.value;
    var subdirectory := Coalesce(options.subdirectory, "");
    var fileName := GenerateFileName(file.originalname, options.customName, timestamp, uuid);
    var destinationDir := JoinPath(uploadDir, subdirectory);
    UploadedFileInfo(file.originalname, fileName, RelativePath(subdirectory, fileName),
                     JoinPath(destinationDir, fileName), file.size, extension, file.mimetype)
  }

  /** The upload directory: the files it holds, by path, with their sizes.
      The clock and the uuid generator are inputs of the operations. */
  class FileStore {
    const uploadDir: string
    var files: map<string, int>

    constructor(uploadDir: string, files: map<string, int>)
      ensures this.uploadDir == uploadDir && this.files == files
    {
      this.uploadDir := uploadDir;
      this.files := files;
    }

    /** `resolveFilePath` for a path relative to the upload directory. */
    function Resolve(filePath: string): string
      reads this
    {
      ResolveFilePath(uploadDir, filePath)
    }

    /** `uploadFile`: a rejected upload writes nothing; an accepted one
        stores the file under its absolute path and reports it. */
    method UploadFile(options: FileUploadOptions, timestamp: nat, uuid: string) returns (r: Result<UploadedFileInfo>)
      modifies this
      ensures CheckUpload(options).Err? ==> r == Err(CheckUpload(options).error) && files == old(files)
      ensures CheckUpload(options).Ok? ==>
        r == Ok(UploadInfo(uploadDir, options, CheckUpload(options).value, timestamp, uuid))
        && files == old(files)[r.value.absolutePath := options.file.value.size]
    {
      var check := CheckUpload(options);
      if check.Err? {
        return Err(check.error);
      }
      var info := UploadInfo(uploadDir, options, check.value, timestamp, uuid);
      files := files[info.absolutePath := info.size];
      r := Ok(info);
    }

    /** `deleteFile`: true when the file existed and is now gone. */
    method DeleteFile(filePath: string) returns (deleted: bool)
      modifies this
      ensures deleted <==> Resolve(filePath) in old(files)
      ensures files == old(files) - {Resolve(filePath)}
    {
      var resolved := Resolve(filePath);
      if resolved !in files {
        return false;
      }
      files := files - {resolved};
      deleted := true;
    }

    /** `fileExists`. */
    function FileExists(filePath: string): (r: bool)
      reads this
      ensures r <==> Resolve(filePath) in files
    {
      Resolve(filePath) in files
    }
  }

  /** An upload the checks accept is stored where its info says, and the
      stored name keeps the extension that was checked. */
  lemma AcceptedUploadKeepsExtension(uploadDir: string, options: FileUploadOptions, timestamp: nat, uuid: string)
    requires CheckUpload(options).Ok?
    requires Plain(uuid)
    ensures var info := UploadInfo(uploadDir, options, CheckUpload(options).value, timestamp, uuid);
      ToLower(Extname(info.generatedName)) == info.extension
      && (options.allowedExtensions.Some? && options.allowedExtensions.value != [] ==>
            info.extension in options.allowedExtensions.value)
      && '\\' !in info.relativePath
  {
    GeneratedNameKeepsExtension(options.file.value.originalname, options.customName, timestamp, uuid);
  }

  /** A name with no directory part whose last '.' comes after its first
      character has, as its extension, that '.' and what follows it. */
  lemma ExtnameOfDottedName(stem: string, ext: string)
    requires stem != [] && '/' !in stem && '/' !in ext && '.' !in ext
    requires stem + "." + ext != ".."
    ensures Extname(stem + "." + ext) == "." + ext
  {
    var b := stem + "." + ext;
    assert '/' !in b by {
      forall i | 0 <= i < |b| ensures b[i] != '/' {
        if i < |stem| {
          assert b[i] == stem[i];
        } else if i > |stem| {
          assert b[i] == ext[i - |stem| - 1];
        }
      }
    }
    assert Basename(b) == b;
    var k := LastIndexOf(b, '.');
    assert b[|stem|] == '.';
    assert k.Some?;
    assert k.value == |stem|;
    assert b[|stem|..] == "." + ext;
  }
}
