/**
 * The upload middleware (server/middleware/upload.js): the accept/reject
 * decision on the MIME type, the target folder, the stored file name, the
 * size limit, and the rewrite done by `optimizeImage`. The upload folders and
 * files are sets of paths relative to the server directory; the clock and the
 * random number are parameters, and the resizing itself is a success flag.
 */
module Upload {
  import opened Wrappers
  import opened Text
  import opened Paths

  const ImagesDir := "uploads/images"
  const VideosDir := "uploads/videos"
  const OtherDir := "uploads/other"
  const MaxUploadBytes: nat := 50 * 1024 * 1024
  const OnlyMediaMessage := "Solo se permiten archivos de imagen y video"
  const OptimizedSuffix := "_optimized.jpg"

  predicate IsImage(mime: string) { StartsWith(mime, "image/") }
  predicate IsVideo(mime: string) { StartsWith(mime, "video/") }

  /** `storage.destination`: images, then videos, then everything else. */
  function DestinationOf(mime: string): (dir: string)
    ensures dir == ImagesDir <==> IsImage(mime)
    ensures dir == VideosDir <==> !IsImage(mime) && IsVideo(mime)
    ensures dir == OtherDir <==> !IsImage(mime) && !IsVideo(mime)
  {
    if IsImage(mime) then ImagesDir
    else if IsVideo(mime) then VideosDir
    else OtherDir
  }

  /** The name prefix: `video-` for videos and `image-` for anything else. */
  function FilenamePrefix(mime: string): (p: string)
    ensures p == "video-" <==> IsVideo(mime)
    ensures p == "image-" <==> !IsVideo(mime)
  {
    if IsVideo(mime) then "video-" else "image-"
  }

  /** `storage.filename`: prefix, the clock in milliseconds, `-`, the random number, the original extension. */
  function StoredFilename(mime: string, originalname: string, now: nat, random: nat): string
  {
    FilenamePrefix(mime) + NatToDecimal(now) + "-" + NatToDecimal(random) + ExtName(originalname)
  }

  datatype Verdict = Accept | Reject(message: string)

  /** `fileFilter`. */
  function FileFilter(mime: string): (v: Verdict)
    ensures v == Accept <==> IsImage(mime) || IsVideo(mime)
    ensures v.Reject? ==> v.message == OnlyMediaMessage
  {
    if IsImage(mime) || IsVideo(mime) then Accept else Reject(OnlyMediaMessage)
  }

  /** The filter and the folder agree: an accepted file never goes to `uploads/other`. */
  lemma AcceptedNeverOther(mime: string)
    ensures FileFilter(mime) == Accept <==> DestinationOf(mime) != OtherDir
  {
  }

  lemma NoSeparators(s: string)
    requires AllDigits(s)
    ensures '/' !in s && '.' !in s
  {
    forall i | 0 <= i < |s| ensures s[i] != '/' && s[i] != '.' {
      assert IsDigit(s[i]);
    }
  }

  /** The stem of a stored name, everything before the extension. */
  function StoredStem(mime: string, now: nat, random: nat): (r: string)
    ensures r != [] && '/' !in r && '.' !in r
  {
    var a := NatToDecimal(now);
    var b := NatToDecimal(random);
    NoSeparators(a);
    NoSeparators(b);
    var r := FilenamePrefix(mime) + a + "-" + b;
    assert forall i :: 0 <= i < |r| ==> r[i] != '/' && r[i] != '.' by {
      forall i | 0 <= i < |r| ensures r[i] != '/' && r[i] != '.' {
        var p := FilenamePrefix(mime);
        if i < |p| {
        } else if i < |p| + |a| {
          assert r[i] == a[i - |p|];
        } else if i == |p| + |a| {
        } else {
          assert r[i] == b[i - |p| - |a| - 1];
        }
      }
    }
    r
  }

  /** The stored name keeps the extension of the name the client sent. */
  lemma StoredFilenameKeepsExtension(mime: string, originalname: string, now: nat, random: nat)
    ensures StoredFilename(mime, originalname, now, random) == StoredStem(mime, now, random) + ExtName(originalname)
    ensures ExtName(StoredFilename(mime, originalname, now, random)) == ExtName(originalname)
    ensures '/' !in StoredFilename(mime, originalname, now, random)
  {
    var stem := StoredStem(mime, now, random);
    var ext := ExtName(originalname);
    ExtNameOfStemAndExt(stem, ext);
    NotInConcat(stem, ext, '/');
  }

  /**
   * The output path of `optimizeImage`: the first occurrence of the input's
   * extension, wherever it is in the path, replaced by `_optimized.jpg`.
   */
  function OptimizedPath(input: string): string
  {
    ReplaceFirst(input, ExtName(input), OptimizedSuffix)
  }

  /**
   * When nothing before the extension contains a `.`, the extension is what
   * gets replaced: the output is the input with `_optimized.jpg` for its extension.
   */
  lemma OptimizedPathReplacesExtension(input: string)
    requires ExtName(input) != []
    requires '.' !in input[..|input| - |ExtName(input)|]
    ensures OptimizedPath(input) == input[..|input| - |ExtName(input)|] + OptimizedSuffix
  {
    var ext := ExtName(input);
    var stem := input[..|input| - |ext|];
    assert input == stem + ext;
    ReplaceFirstSkips(stem, ext, ext, OptimizedSuffix);
    ReplaceFirstAtStart(ext, ext, OptimizedSuffix);
    assert ext[|ext|..] == [];
    assert OptimizedSuffix + [] == OptimizedSuffix;
  }

  /** Without an extension the empty pattern matches at the start: the suffix is put in front. */
  lemma OptimizedPathWithoutExtension(input: string)
    requires ExtName(input) == []
    ensures OptimizedPath(input) == OptimizedSuffix + input
  {
    ReplaceFirstAtStart(input, [], OptimizedSuffix);
    assert input[0..] == input;
  }

  /**
   * For a file stored by this middleware with an extension, in a folder whose
   * path has no `.`, the optimised copy sits in the same folder as
   * `<stem>_optimized.jpg`.
   */
  lemma OptimizedStoredFile(dir: string, mime: string, originalname: string, now: nat, random: nat)
    requires '.' !in dir && ExtName(originalname) != []
    ensures var stem := StoredStem(mime, now, random);
            var out := OptimizedPath(dir + "/" + StoredFilename(mime, originalname, now, random));
            out == dir + "/" + (stem + OptimizedSuffix) &&
            Basename(out) == stem + OptimizedSuffix
  {
    var stem := StoredStem(mime, now, random);
    var ext := ExtName(originalname);
    var name := StoredFilename(mime, originalname, now, random);
    StoredFilenameKeepsExtension(mime, originalname, now, random);
    ExtNameOfJoin(dir, name);
    var front := dir + "/" + stem;
    ConcatAssociative(dir + "/", stem, ext);
    NoDotInJoin(dir, stem);
    OptimizedFront(front, ext);
    SuffixHasNoSlash();
    BasenameOfJoin(dir, stem + OptimizedSuffix);
    ConcatAssociative(dir + "/", stem, OptimizedSuffix);
  }

  lemma NoDotInJoin(dir: string, stem: string)
    requires '.' !in dir && '.' !in stem
    ensures '.' !in dir + "/" + stem
  {
  }

  /** A path whose extension follows a dot-free front gets the suffix right after that front. */
  lemma OptimizedFront(front: string, ext: string)
    requires ext != [] && '.' !in front && ExtName(front + ext) == ext
    ensures OptimizedPath(front + ext) == front + OptimizedSuffix
  {
    var input := front + ext;
    assert input[..|input| - |ext|] == front;
    OptimizedPathReplacesExtension(input);
  }

  lemma SuffixHasNoSlash()
    ensures '/' !in OptimizedSuffix
  {
  }

  lemma ImagesDirHasNoDot()
    ensures '.' !in ImagesDir
  {
  }

  /** In particular for an image in `uploads/images`. */
  lemma OptimizedStoredImage(mime: string, originalname: string, now: nat, random: nat)
    requires IsImage(mime) && ExtName(originalname) != []
    ensures var out := OptimizedPath(DestinationOf(mime) + "/" + StoredFilename(mime, originalname, now, random));
            out == ImagesDir + "/" + (StoredStem(mime, now, random) + OptimizedSuffix) &&
            Basename(out) == StoredStem(mime, now, random) + OptimizedSuffix
  {
    ImagesDirHasNoDot();
    OptimizedStoredFile(ImagesDir, mime, originalname, now, random);
  }

  /**
   * The effect of `optimizeImage` on the upload files, and whether it
   * succeeded: the copy is written when resizing succeeds, and the original
   * is then unlinked unless it is already gone.
   */
  function Optimized(files: set<string>, input: string, sharpOk: bool): (r: (set<string>, bool))
  {
    if !sharpOk then (files, false)
    else
      var written := files + {OptimizedPath(input)};
      if input in written then (written - {input}, true) else (written, false)
  }

  /**
   * Optimising an image that is on disk succeeds exactly when resizing does,
   * and then leaves the copy in place of the original.
   */
  lemma OptimizedOnDisk(files: set<string>, input: string, sharpOk: bool)
    requires input in files && input != OptimizedPath(input)
    ensures Optimized(files, input, sharpOk).1 == sharpOk
    ensures sharpOk ==> Optimized(files, input, sharpOk).0 == files - {input} + {OptimizedPath(input)}
  {
  }

  /** What multer reports for one incoming file. */
  datatype Received =
    | Refused(message: string)
    | TooLarge
    | Saved(destination: string, filename: string, path: string)

  /** `req.file` once multer has stored the upload; `optimizeImage` rewrites its path and name. */
  class UploadedFile {
    var path: string
    var filename: string
    const mimetype: string

    constructor(path: string, filename: string, mimetype: string)
      ensures this.path == path && this.filename == filename && this.mimetype == mimetype
    {
      this.path := path;
      this.filename := filename;
      this.mimetype := mimetype;
    }
  }

  /** The upload folders and the files in them. */
  class UploadDisk {
    var dirs: set<string>
    var files: set<string>

    constructor()
      ensures dirs == {} && files == {}
    {
      dirs := {};
      files := {};
    }

    /** `storage.destination`: the folder for the type, created when absent. */
    method Destination(mime: string) returns (dir: string)
      modifies this
      ensures dir == DestinationOf(mime)
      ensures dirs == old(dirs) + {dir} && dir in dirs
      ensures files == old(files)
    {
      dir := DestinationOf(mime);
      if dir !in dirs {
        dirs := dirs + {dir};
      }
    }

    /**
     * One file through `upload`: the filter first, then the folder and name,
     * then the size limit; a file over the limit is not kept.
     */
    method Receive(mime: string, originalname: string, size: nat, now: nat, random: nat) returns (r: Received)
      modifies this
      ensures FileFilter(mime).Reject? ==> r == Refused(OnlyMediaMessage) && dirs == old(dirs) && files == old(files)
      ensures FileFilter(mime) == Accept ==> dirs == old(dirs) + {DestinationOf(mime)}
      ensures FileFilter(mime) == Accept && size > MaxUploadBytes ==> r == TooLarge && files == old(files)
      ensures FileFilter(mime) == Accept && size <= MaxUploadBytes ==>
                var name := StoredFilename(mime, originalname, now, random);
                var dir := DestinationOf(mime);
                r == Saved(dir, name, dir + "/" + name) && files == old(files) + {dir + "/" + name}
    {
      var verdict := FileFilter(mime);
      if verdict.Reject? {
        return Refused(verdict.message);
      }
      var dir := Destination(mime);
      var name := StoredFilename(mime, originalname, now, random);
      if size > MaxUploadBytes {
        return TooLarge;
      }
      files := files + {dir + "/" + name};
      r := Saved(dir, name, dir + "/" + name);
    }

    /**
     * `optimizeImage`: nothing happens without a file or for a non-image.
     * Otherwise the optimised copy is written and the original unlinked, and
     * only then are `path` and `filename` pointed at the copy. A failure of
     * either step is passed on as the error, with `req.file` as it was.
     */
    method OptimizeImage(file: UploadedFile?, sharpOk: bool) returns (err: Option<string>)
      modifies this, file
      ensures dirs == old(dirs)
      ensures file == null || !IsImage(file.mimetype) ==>
                err == None && files == old(files) && (file != null ==> unchanged(file))
      ensures file != null && IsImage(file.mimetype) ==>
                var (after, ok) := Optimized(old(files), old(file.path), sharpOk);
                files == after && (err == None <==> ok) &&
                (ok ==> file.path == OptimizedPath(old(file.path)) && file.filename == Basename(file.path)) &&
                (!ok ==> unchanged(file))
    {
      if file == null || !IsImage(file.mimetype) {
        return None;
      }
      var input := file.path;
      var out := OptimizedPath(input);
      if !sharpOk {
        return Some("sharp failed");
      }
      files := files + {out};
      if input !in files {
        return Some("ENOENT: no such file");
      }
      files := files - {input};
      file.path := out;
      file.filename := Basename(out);
      err := None;
    }
  }
}
