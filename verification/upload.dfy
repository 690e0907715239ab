/**
 * `UploadService` and the multer configuration of `UploadModule`: where
 * uploaded images are stored, under which name, which files are accepted,
 * and the URL a stored file is served under.
 */
module Upload {
  import opened Wrappers
  import opened Text
  import opened Errors

  // --------------------------------------------------------- configuration

  const DefaultUploadDest := "./uploads"
  const DefaultMaxFileSize := 5242880
  const UrlPrefix := "/uploads/"

  /** `UPLOAD_DEST` and `UPLOAD_MAX_FILE_SIZE`, when set. */
  datatype UploadConfig = UploadConfig(uploadDest: Option<string>, maxFileSize: Option<int>)

  function UploadDir(cfg: UploadConfig): string {
    cfg.uploadDest.GetOr(DefaultUploadDest)
  }

  function MaxFileSize(cfg: UploadConfig): int {
    cfg.maxFileSize.GetOr(DefaultMaxFileSize)
  }

  /** Five mebibytes. */
  lemma DefaultLimitIsFiveMebibytes(cfg: UploadConfig)
    requires cfg.maxFileSize.None?
    ensures MaxFileSize(cfg) == 5 * 1024 * 1024
  {
  }

  // -------------------------------------------------------------- file URL

  /** `getFileUrl`: the public URL of a stored file; the upload directory plays no part. */
  function GetFileUrl(filename: string): (url: string)
    ensures StartsWith(url, UrlPrefix)
    ensures url[|UrlPrefix|..] == filename
  {
    UrlPrefix + filename
  }

  /**
   * The product service recovers the file name from an image URL with
   * `split('/').pop()`; for a name without '/', that undoes `getFileUrl`.
   */
  lemma {:induction false} FileUrlRoundTrip(filename: string)
    requires '/' !in filename
    ensures LastSegment(GetFileUrl(filename)) == filename
  {
    assert GetFileUrl(filename) == "/uploads" + "/" + filename;
    LastSegmentAfterSlash("/uploads", filename);
  }

  // --------------------------------------------------------------- deleting

  /** `join(uploadDir, filename)`; path normalisation is not modelled. */
  function FilePath(dir: string, filename: string): string {
    dir + "/" + filename
  }

  /** `fs.unlink`: fails when there is no such file. */
  function Unlink(files: set<string>, path: string): (r: Result<set<string>, Error>)
    ensures r.Failure? <==> path !in files
    ensures r.Failure? ==> r.error == FileMissing
    ensures r.Success? ==> r.value == files - {path}
  {
    if path in files then Success(files - {path}) else Failure(FileMissing)
  }

  /**
   * `deleteFile`: removes the file from the upload directory; an unlink
   * failure is logged and swallowed, so the caller always continues.
   */
  function DeleteFile(cfg: UploadConfig, files: set<string>, filename: string): (r: set<string>)
    ensures r == files - {FilePath(UploadDir(cfg), filename)}
  {
    match Unlink(files, FilePath(UploadDir(cfg), filename))
    case Success(rest) => rest
    case Failure(_) => files
  }

  /** The upload directory after `deleteFile` of each name in turn. */
  function DeleteAll(cfg: UploadConfig, files: set<string>, names: seq<string>): (r: set<string>)
    ensures forall f :: f in r <==>
      f in files && forall i :: 0 <= i < |names| ==> f != FilePath(UploadDir(cfg), names[i])
  {
    if names == [] then files
    else DeleteAll(cfg, DeleteFile(cfg, files, names[0]), names[1..])
  }

  // ---------------------------------------------------------- stored names

  function StripTrailingSlashes(s: string): (r: string)
    ensures StartsWith(s, r)
    ensures r == "" || r[|r| - 1] != '/'
  {
    if |s| > 0 && s[|s| - 1] == '/' then StripTrailingSlashes(s[..|s| - 1]) else s
  }

  /**
   * Node's `path.extname` (POSIX): from the last '.' of the last path
   * segment to its end; empty when that segment has no '.', starts with its
   * only '.', or is "..".
   */
  function Extname(path: string): (ext: string)
    ensures ext == "" || (ext[0] == '.' && '.' !in ext[1..] && '/' !in ext)
  {
    ExtOfBase(LastSegment(StripTrailingSlashes(path)))
  }

  /** The extension of a last path segment. */
  function ExtOfBase(base: string): (ext: string)
    requires '/' !in base
    ensures ext == "" || (ext[0] == '.' && '.' !in ext[1..] && '/' !in ext)
    ensures EndsWith(base, ext)
  {
    match LastIndexOf(base, ".")
    case None => ""
    case Some(i) =>
      if i == 0 || base == ".." then ""
      else
        assert forall j :: i < j < |base| ==> base[j] != '.' by {
          forall j | i < j < |base| ensures base[j] != '.' {
            assert !OccursAt(base, ".", j);
            assert base[j..j + 1] == [base[j]];
          }
        }
        assert '/' !in base[i..] by {
          forall j | 0 <= j < |base| - i ensures base[i..][j] != '/' {
            assert base[i..][j] == base[i + j];
            assert base[i + j] in base;
          }
        }
        base[i..]
  }

  /** A hexadecimal digit. */
  predicate IsHex(c: char) {
    '0' <= c <= '9' || 'a' <= c <= 'f'
  }

  function HexDigit(d: int): (c: char)
    requires 0 <= d < 16
    ensures IsHex(c)
  {
    if d < 10 then ('0' as int + d) as char else ('a' as int + d - 10) as char
  }

  /** `n.toString(16)` for 0 <= n <= 16. */
  function HexOf(n: int): (s: string)
    requires 0 <= n <= 16
    ensures |s| == if n == 16 then 2 else 1
    ensures forall i :: 0 <= i < |s| ==> IsHex(s[i])
  {
    if n == 16 then "10" else [HexDigit(n)]
  }

  /**
   * The random name as written: 32 draws of `Math.round(Math.random() * 16)`,
   * each a value in 0..16, each written in hexadecimal.
   */
  function RandomNameAsWritten(draws: seq<int>): (name: string)
    requires forall i :: 0 <= i < |draws| ==> 0 <= draws[i] <= 16
    ensures |draws| <= |name| <= 2 * |draws|
    ensures forall i :: 0 <= i < |name| ==> IsHex(name[i])
  {
    if draws == [] then "" else RandomNameAsWritten(draws[..|draws| - 1]) + HexOf(draws[|draws| - 1])
  }

  /** A draw of 16 is written "10": a name of 32 draws can be 64 characters long. */
  lemma {:induction false} AsWrittenNameCanDoubleInLength(n: nat)
    ensures |RandomNameAsWritten(seq(n, i => 16))| == 2 * n
  {
    if n > 0 {
      var draws := seq(n, i => 16);
      assert draws[..n - 1] == seq(n - 1, i => 16);
      AsWrittenNameCanDoubleInLength(n - 1);
    }
  }

  const NameDraws := 32

  /** A draw of the corrected generator, `Math.floor(Math.random() * 16)`: one hex digit. */
  predicate ValidDraws(draws: seq<int>) {
    |draws| == NameDraws && forall i :: 0 <= i < |draws| ==> 0 <= draws[i] < 16
  }

  /** The corrected random name: exactly one hexadecimal digit per draw. */
  function RandomName(draws: seq<int>): (name: string)
    requires forall i :: 0 <= i < |draws| ==> 0 <= draws[i] < 16
    ensures |name| == |draws|
    ensures forall i :: 0 <= i < |name| ==> IsHex(name[i]) && name[i] == HexDigit(draws[i])
  {
    seq(|draws|, i requires 0 <= i < |draws| => HexDigit(draws[i]))
  }

  /** On draws below 16 the corrected name is the one written. */
  lemma {:induction false} RandomNameAgreesBelowSixteen(draws: seq<int>)
    requires forall i :: 0 <= i < |draws| ==> 0 <= draws[i] < 16
    ensures RandomNameAsWritten(draws) == RandomName(draws)
  {
    if draws != [] {
      RandomNameAgreesBelowSixteen(draws[..|draws| - 1]);
    }
  }

  /** The disk name of an upload: the random name followed by the original extension. */
  function StoredName(randomName: string, originalname: string): (name: string)
    ensures EndsWith(name, Extname(originalname))
  {
    randomName + Extname(originalname)
  }

  lemma StripOfSlashFree(s: string)
    requires '/' !in s
    ensures StripTrailingSlashes(s) == s
  {
    assert |s| > 0 ==> s[|s| - 1] in s;
  }

  /** For a name without '/', the extension is that of the whole name. */
  lemma ExtnameOfSlashFree(name: string)
    requires '/' !in name
    ensures Extname(name) == ExtOfBase(name)
  {
    StripOfSlashFree(name);
    LastSegmentOfSlashFree(name);
  }

  /** Hexadecimal digits are neither '.' nor '/'. */
  lemma RandomNameIsPlain(draws: seq<int>)
    requires ValidDraws(draws)
    ensures var rnd := RandomName(draws);
      |rnd| == NameDraws && '.' !in rnd && '/' !in rnd
  {
    var rnd := RandomName(draws);
    forall i | 0 <= i < |rnd| ensures rnd[i] != '.' && rnd[i] != '/' {
      assert IsHex(rnd[i]);
    }
  }

  /** A non-empty prefix without '.' does not change the extension. */
  lemma {:induction false} ExtOfBaseAfterPlainPrefix(rnd: string, ext: string)
    requires |rnd| > 0 && '.' !in rnd && '/' !in rnd
    requires ext == "" || (ext[0] == '.' && '.' !in ext[1..] && '/' !in ext)
    ensures '/' !in rnd + ext
    ensures ExtOfBase(rnd + ext) == ext
  {
    var base := rnd + ext;
    forall j | 0 <= j < |base| ensures base[j] != '/' {
      assert j < |rnd| ==> base[j] == rnd[j] && rnd[j] in rnd;
      assert j >= |rnd| ==> base[j] == ext[j - |rnd|] && ext[j - |rnd|] in ext;
    }
    if ext == "" {
      forall j | 0 <= j < |base| ensures !OccursAt(base, ".", j) {
        assert base[j..j + 1] == [base[j]];
        assert base[j] == rnd[j] && rnd[j] in rnd;
      }
      assert !Contains(base, ".");
    } else {
      var i := |rnd|;
      assert base[i..i + 1] == ".";
      assert OccursAt(base, ".", i);
      forall j | i < j < |base| ensures !OccursAt(base, ".", j) {
        assert base[j..j + 1] == [base[j]];
        assert base[j] == ext[1..][j - i - 1] && ext[1..][j - i - 1] in ext[1..];
      }
      assert LastIndexOf(base, ".") == Some(i);
      assert base[0] != '.' by { assert base[0] == rnd[0] && rnd[0] in rnd; }
      assert base[i..] == ext;
    }
  }

  /**
   * A stored name keeps the original's extension, and contains no '/', so
   * the URL round trip recovers it.
   */
  lemma StoredNameKeepsExtension(draws: seq<int>, originalname: string)
    requires ValidDraws(draws)
    ensures Extname(StoredName(RandomName(draws), originalname)) == Extname(originalname)
    ensures '/' !in StoredName(RandomName(draws), originalname)
  {
    RandomNameIsPlain(draws);
    ExtOfBaseAfterPlainPrefix(RandomName(draws), Extname(originalname));
    ExtnameOfSlashFree(StoredName(RandomName(draws), originalname));
  }

  // ---------------------------------------------------------------- filter

  /** `/jpeg|jpg|png|webp/.test(s)`: an unanchored, case-sensitive search. */
  predicate AllowedType(s: string) {
    Contains(s, "jpeg") || Contains(s, "jpg") || Contains(s, "png") || Contains(s, "webp")
  }

  /** The two arguments the filter hands to multer's callback. */
  datatype FilterCall = FilterCall(error: Option<Error>, accept: bool)

  /**
   * `fileFilter`: the mimetype as sent, and the extension lower-cased, must
   * both match; otherwise the callback gets an error and `false`.
   */
  function FileFilter(mimetype: string, originalname: string): (call: FilterCall)
    ensures call.accept <==> AllowedType(mimetype) && AllowedType(Lower(Extname(originalname)))
    ensures call.accept <==> call.error.None?
    ensures !call.accept ==> call.error == Some(FileRejected)
  {
    if AllowedType(mimetype) && AllowedType(Lower(Extname(originalname))) then FilterCall(None, true)
    else FilterCall(Some(FileRejected), false)
  }

  /** The file part of a multipart request as multer sees it. */
  datatype IncomingFile = IncomingFile(mimetype: string, originalname: string, size: nat)

  /** What the controller receives as `file`: the stored name and the size. */
  datatype StoredFile = StoredFile(filename: string, size: nat)

  /**
   * Multer on one file: the filter, then the size limit, then the name the
   * file is stored under.
   */
  function Receive(cfg: UploadConfig, f: IncomingFile, draws: seq<int>): (r: Result<StoredFile, Error>)
    requires ValidDraws(draws)
    ensures r.Success? <==> FileFilter(f.mimetype, f.originalname).accept && f.size <= MaxFileSize(cfg)
    ensures r.Failure? && !FileFilter(f.mimetype, f.originalname).accept ==> r.error == FileRejected
    ensures r.Success? ==>
      && r.value.size == f.size
      && |r.value.filename| == NameDraws + |Extname(f.originalname)|
      && EndsWith(r.value.filename, Extname(f.originalname))
      && Extname(r.value.filename) == Extname(f.originalname)
      && LastSegment(GetFileUrl(r.value.filename)) == r.value.filename
  {
    if !FileFilter(f.mimetype, f.originalname).accept then Failure(FileRejected)
    else if f.size > MaxFileSize(cfg) then Failure(FileTooLarge)
    else
      var name := StoredName(RandomName(draws), f.originalname);
      StoredNameKeepsExtension(draws, f.originalname);
      FileUrlRoundTrip(name);
      Success(StoredFile(name, f.size))
  }

  /** The extensions of the four image formats the filter is written for. */
  const ImageExtensions: seq<string> := [".jpeg", ".jpg", ".png", ".webp"]

  /** A name that ends in an extension of at least one character after the dot has that extension. */
  lemma {:induction false} ExtOfBaseAfterStem(stem: string, ext: string)
    requires |stem| > 0 && '/' !in stem
    requires |ext| >= 2 && ext[0] == '.' && '.' !in ext[1..] && '/' !in ext
    ensures '/' !in stem + ext
    ensures ExtOfBase(stem + ext) == ext
  {
    var base := stem + ext;
    forall j | 0 <= j < |base| ensures base[j] != '/' {
      assert j < |stem| ==> base[j] == stem[j] && stem[j] in stem;
      assert j >= |stem| ==> base[j] == ext[j - |stem|] && ext[j - |stem|] in ext;
    }
    var i := |stem|;
    assert base[i..i + 1] == ".";
    assert OccursAt(base, ".", i);
    forall j | i < j < |base| ensures !OccursAt(base, ".", j) {
      assert base[j..j + 1] == [base[j]];
      assert base[j] == ext[1..][j - i - 1] && ext[1..][j - i - 1] in ext[1..];
    }
    assert LastIndexOf(base, ".") == Some(i);
    assert base[i..] == ext;
  }

  /** Each of the four image extensions is lower case and names its own format. */
  lemma ImageExtensionAllowed(ext: string)
    requires ext in ImageExtensions
    ensures |ext| >= 2 && ext[0] == '.' && '.' !in ext[1..] && '/' !in ext
    ensures Lower(ext) == ext && AllowedType(ext)
  {
    assert forall i :: 0 <= i < |ext| ==> !IsUpper(ext[i]) && ext[i] != '/';
    assert forall i :: 1 <= i < |ext| ==> ext[i] != '.';
    assert forall i :: 0 <= i < |ext[1..]| ==> ext[1..][i] == ext[i + 1];
    assert OccursAt(ext, ext[1..], 1);
  }

  /**
   * Every file whose mimetype names an allowed format and whose name ends in
   * one of the four image extensions is accepted, whatever comes before it.
   */
  lemma ImageNamesAccepted(mimetype: string, stem: string, ext: string)
    requires AllowedType(mimetype)
    requires stem != "" && '/' !in stem
    requires ext in ImageExtensions
    ensures FileFilter(mimetype, stem + ext).accept
  {
    ImageExtensionAllowed(ext);
    ExtOfBaseAfterStem(stem, ext);
    ExtnameOfSlashFree(stem + ext);
  }

  /** The test is unanchored: an extension that merely contains "png" passes. */
  lemma UnanchoredExtensionAccepted()
    ensures FileFilter("image/png", "x.apngx").accept
  {
    var name, ext := "x.apngx", ".apngx";
    assert name == "x" + ext;
    assert '/' !in name by { assert forall i :: 0 <= i < |name| ==> name[i] != '/'; }
    assert '.' !in ext[1..] && '/' !in ext by {
      assert forall i :: 0 <= i < |ext| ==> ext[i] != '/';
      assert forall i :: 0 <= i < |ext[1..]| ==> ext[1..][i] != '.';
    }
    ExtOfBaseAfterPlainPrefix("x", ext);
    ExtnameOfSlashFree(name);
    assert Extname(name) == ext;
    ApngxContainsPng();
  }

  lemma ApngxContainsPng()
    ensures Contains(Lower(".apngx"), "png") && Contains("image/png", "png")
  {
    var ext := ".apngx";
    assert forall i :: 0 <= i < |ext| ==> !IsUpper(ext[i]);
    assert Lower(ext) == ext;
    assert OccursAt(ext, "png", 2);
    assert OccursAt("image/png", "png", 6);
  }

  /** The mimetype is not lower-cased: an upper-case mimetype is refused. */
  lemma UpperCaseMimetypeRefused()
    ensures !FileFilter("IMAGE/PNG", "x.png").accept
  {
    var m := "IMAGE/PNG";
    assert forall i :: 0 <= i < |m| ==> !IsLower(m[i]);
    NoLowerNoMatch(m, "png");
    NoLowerNoMatch(m, "jpg");
    NoLowerNoMatch(m, "jpeg");
    NoLowerNoMatch(m, "webp");
  }

  lemma NoLowerNoMatch(s: string, pat: string)
    requires forall i :: 0 <= i < |s| ==> !IsLower(s[i])
    requires |pat| > 0 && IsLower(pat[0])
    ensures !Contains(s, pat)
  {
    forall i | 0 <= i && i + |pat| <= |s| ensures !OccursAt(s, pat, i) {
      assert s[i..i + |pat|][0] == s[i] != pat[0];
    }
  }
}
