/**
 * The file picker of client/src/components/common/MediaUpload.jsx: which
 * dropped or chosen files are accepted, the error shown, the selection and
 * the previews it keeps, and what `onFileSelect` is called with.
 */
module MediaUpload {
  import opened Wrappers
  import opened Text
  import opened Lists

  /** A browser `File`; `handle` stands for its object identity, which `===` and `!==` compare. */
  datatype File = File(handle: int, name: string, mime: string, size: nat)

  datatype PreviewKind = Image | Video

  /** A preview entry; its data URL is not modelled. */
  datatype Preview = Preview(file: File, kind: PreviewKind)

  /** Whether and with what `onFileSelect` was called. */
  datatype Notice = NotCalled | WithList(files: seq<File>) | WithFile(file: File) | WithNull

  const BytesPerMegabyte: nat := 1024 * 1024

  /** One entry of `acceptedTypes` against a file's MIME type. */
  predicate TypeMatches(accepted: string, mime: string)
  {
    if accepted == "image/*" then StartsWith(mime, "image/")
    else if accepted == "video/*" then StartsWith(mime, "video/")
    else mime == accepted
  }

  /** `acceptedTypes.some(...)`. */
  predicate TypeAccepted(acceptedTypes: seq<string>, mime: string)
  {
    exists i :: 0 <= i < |acceptedTypes| && TypeMatches(acceptedTypes[i], mime)
  }

  /** `file.size <= maxSize * 1024 * 1024`. */
  predicate SizeAccepted(maxSize: nat, size: nat)
  {
    size <= maxSize * BytesPerMegabyte
  }

  function TypeError(name: string): string
  {
    "Tipo de archivo no válido: " + name
  }

  function SizeError(name: string, maxSize: nat): string
  {
    "Archivo demasiado grande: " + name + ". Máximo " + NatToDecimal(maxSize) + "MB."
  }

  /** The error a file is turned down with: the type check comes before the size check. */
  function Rejection(acceptedTypes: seq<string>, maxSize: nat, f: File): (r: Option<string>)
    ensures r.None? <==> TypeAccepted(acceptedTypes, f.mime) && SizeAccepted(maxSize, f.size)
    ensures !TypeAccepted(acceptedTypes, f.mime) ==> r == Some(TypeError(f.name))
    ensures TypeAccepted(acceptedTypes, f.mime) && !SizeAccepted(maxSize, f.size) ==> r == Some(SizeError(f.name, maxSize))
  {
    if !TypeAccepted(acceptedTypes, f.mime) then Some(TypeError(f.name))
    else if !SizeAccepted(maxSize, f.size) then Some(SizeError(f.name, maxSize))
    else None
  }

  function Passes(acceptedTypes: seq<string>, maxSize: nat): File -> bool
  {
    (f: File) => Rejection(acceptedTypes, maxSize, f).None?
  }

  /** The error of the last file turned down; each rejection overwrites the previous one. */
  function LastRejection(acceptedTypes: seq<string>, maxSize: nat, files: seq<File>): Option<string>
    decreases |files|
  {
    if files == [] then None
    else
      var last := Rejection(acceptedTypes, maxSize, files[|files| - 1]);
      if last.Some? then last else LastRejection(acceptedTypes, maxSize, files[..|files| - 1])
  }

  /**
   * There is an error exactly when some file is turned down, and it is the
   * error of a file that was, the last one turned down.
   */
  lemma LastRejectionExact(acceptedTypes: seq<string>, maxSize: nat, files: seq<File>)
    ensures var r := LastRejection(acceptedTypes, maxSize, files);
            r.None? <==> forall i :: 0 <= i < |files| ==> Passes(acceptedTypes, maxSize)(files[i])
    ensures var r := LastRejection(acceptedTypes, maxSize, files);
            r.Some? ==> exists i :: LastRejectedAt(acceptedTypes, maxSize, files, i, r)
  {
    LastRejectionNone(acceptedTypes, maxSize, files);
    LastRejectionLast(acceptedTypes, maxSize, files);
  }

  lemma {:induction false} LastRejectionNone(acceptedTypes: seq<string>, maxSize: nat, files: seq<File>)
    ensures LastRejection(acceptedTypes, maxSize, files).None? <==>
            forall i :: 0 <= i < |files| ==> Passes(acceptedTypes, maxSize)(files[i])
    decreases |files|
  {
    if files != [] {
      var n := |files| - 1;
      var init := files[..n];
      LastRejectionNone(acceptedTypes, maxSize, init);
      assert forall i :: 0 <= i < n ==> init[i] == files[i];
    }
  }

  /** The file at `i` is turned down with `r`, and every file after it passes. */
  predicate LastRejectedAt(acceptedTypes: seq<string>, maxSize: nat, files: seq<File>, i: int, r: Option<string>)
  {
    0 <= i < |files| && Rejection(acceptedTypes, maxSize, files[i]) == r &&
    forall j :: i < j < |files| ==> Passes(acceptedTypes, maxSize)(files[j])
  }

  lemma {:induction false} LastRejectionLast(acceptedTypes: seq<string>, maxSize: nat, files: seq<File>)
    ensures var r := LastRejection(acceptedTypes, maxSize, files);
            r.Some? ==> exists i :: LastRejectedAt(acceptedTypes, maxSize, files, i, r)
    decreases |files|
  {
    if files != [] {
      var n := |files| - 1;
      var init := files[..n];
      var r := LastRejection(acceptedTypes, maxSize, files);
      if Rejection(acceptedTypes, maxSize, files[n]).Some? {
        assert LastRejectedAt(acceptedTypes, maxSize, files, n, r);
      } else if r.Some? {
        assert r == LastRejection(acceptedTypes, maxSize, init);
        LastRejectionLast(acceptedTypes, maxSize, init);
        var i :| LastRejectedAt(acceptedTypes, maxSize, init, i, r);
        LastRejectedExtends(acceptedTypes, maxSize, files, i, r);
      }
    }
  }

  /** A rejection that is last among all but the final file stays last when that file passes. */
  lemma LastRejectedExtends(acceptedTypes: seq<string>, maxSize: nat, files: seq<File>, i: int, r: Option<string>)
    requires files != []
    requires LastRejectedAt(acceptedTypes, maxSize, files[..|files| - 1], i, r)
    requires Passes(acceptedTypes, maxSize)(files[|files| - 1])
    ensures LastRejectedAt(acceptedTypes, maxSize, files, i, r)
  {
    var n := |files| - 1;
    assert forall j :: 0 <= j < n ==> files[..n][j] == files[j];
  }

  /** `file.type.startsWith('image/') ? 'image' : 'video'`. */
  function KindOf(mime: string): (k: PreviewKind)
    ensures k == Image <==> StartsWith(mime, "image/")
  {
    if StartsWith(mime, "image/") then Image else Video
  }

  function NotOf(f: File): Preview -> bool
  {
    (p: Preview) => p.file != f
  }

  /** A finished read of `f`: its older preview is dropped and the new one goes last. */
  function Loaded(previews: seq<Preview>, f: File): seq<Preview>
  {
    Filter(previews, NotOf(f)) + [Preview(f, KindOf(f.mime))]
  }

  /** The previews once every file's read has finished, in the order the reads were started. */
  function Refreshed(previews: seq<Preview>, files: seq<File>): seq<Preview>
    decreases |files|
  {
    if files == [] then previews
    else Loaded(Refreshed(previews, files[..|files| - 1]), files[|files| - 1])
  }

  /** Every file gets its preview of the right kind, and nothing else appears besides the old previews. */
  lemma {:induction false} RefreshedFacts(previews: seq<Preview>, files: seq<File>, p: Preview)
    ensures forall f :: f in files ==> Preview(f, KindOf(f.mime)) in Refreshed(previews, files)
    ensures p in Refreshed(previews, files) ==> p in previews || p.file in files
    decreases |files|
  {
    if files != [] {
      var init := files[..|files| - 1];
      var g := files[|files| - 1];
      var before := Refreshed(previews, init);
      RefreshedFacts(previews, init, p);
      FilterMembership(before, NotOf(g), p);
      forall f | f in files ensures Preview(f, KindOf(f.mime)) in Refreshed(previews, files) {
        if f != g {
          assert f in init by {
            var k :| 0 <= k < |files| && files[k] == f;
            assert init[k] == f;
          }
          FilterMembership(before, NotOf(g), Preview(f, KindOf(f.mime)));
        }
      }
    }
  }

  /** One more file checked: it extends the accepted list or becomes the last rejection. */
  lemma CheckStep(acceptedTypes: seq<string>, maxSize: nat, files: seq<File>, i: nat)
    requires i < |files|
    ensures var f := files[i];
            !TypeAccepted(acceptedTypes, f.mime) ==>
              Filter(files[..i + 1], Passes(acceptedTypes, maxSize)) == Filter(files[..i], Passes(acceptedTypes, maxSize)) &&
              LastRejection(acceptedTypes, maxSize, files[..i + 1]) == Some(TypeError(f.name))
    ensures var f := files[i];
            TypeAccepted(acceptedTypes, f.mime) && !SizeAccepted(maxSize, f.size) ==>
              Filter(files[..i + 1], Passes(acceptedTypes, maxSize)) == Filter(files[..i], Passes(acceptedTypes, maxSize)) &&
              LastRejection(acceptedTypes, maxSize, files[..i + 1]) == Some(SizeError(f.name, maxSize))
    ensures var f := files[i];
            TypeAccepted(acceptedTypes, f.mime) && SizeAccepted(maxSize, f.size) ==>
              Filter(files[..i + 1], Passes(acceptedTypes, maxSize)) == Filter(files[..i], Passes(acceptedTypes, maxSize)) + [f] &&
              LastRejection(acceptedTypes, maxSize, files[..i + 1]) == LastRejection(acceptedTypes, maxSize, files[..i])
  {
    FilterStep(acceptedTypes, maxSize, files, i);
    RejectionStep(acceptedTypes, maxSize, files, i);
  }

  lemma FilterStep(acceptedTypes: seq<string>, maxSize: nat, files: seq<File>, i: nat)
    requires i < |files|
    ensures Filter(files[..i + 1], Passes(acceptedTypes, maxSize)) ==
            Filter(files[..i], Passes(acceptedTypes, maxSize)) +
            (if Passes(acceptedTypes, maxSize)(files[i]) then [files[i]] else [])
  {
    assert files[..i + 1] == files[..i] + [files[i]];
    FilterAppend(files[..i], [files[i]], Passes(acceptedTypes, maxSize));
  }

  lemma RejectionStep(acceptedTypes: seq<string>, maxSize: nat, files: seq<File>, i: nat)
    requires i < |files|
    ensures var r := Rejection(acceptedTypes, maxSize, files[i]);
            LastRejection(acceptedTypes, maxSize, files[..i + 1]) ==
              if r.Some? then r else LastRejection(acceptedTypes, maxSize, files[..i])
  {
    assert files[..i + 1][..i] == files[..i];
  }

  /** The component's state for fixed props. */
  class Uploader {
    const acceptedTypes: seq<string>
    const maxSize: nat
    const showPreview: bool
    const multiple: bool
    var selectedFiles: seq<File>
    var previews: seq<Preview>
    var error: string

    constructor (acceptedTypes: seq<string>, maxSize: nat, showPreview: bool, multiple: bool)
      ensures this.acceptedTypes == acceptedTypes && this.maxSize == maxSize
      ensures this.showPreview == showPreview && this.multiple == multiple
      ensures selectedFiles == [] && previews == [] && error == ""
    {
      this.acceptedTypes := acceptedTypes;
      this.maxSize := maxSize;
      this.showPreview := showPreview;
      this.multiple := multiple;
      selectedFiles := [];
      previews := [];
      error := "";
    }

    /**
     * `handleFiles`: the error is cleared, then each file is checked in turn;
     * the accepted ones, in their order, replace the selection or are added
     * to it, previews are generated and `onFileSelect` is called. With no
     * accepted file, only the error changes.
     */
    method HandleFiles(files: seq<File>) returns (notice: Notice)
      modifies this
      ensures error == LastRejection(acceptedTypes, maxSize, files).GetOr("")
      ensures var valid := Filter(files, Passes(acceptedTypes, maxSize));
              if valid == [] then
                selectedFiles == old(selectedFiles) && previews == old(previews) && notice == NotCalled
              else
                selectedFiles == (if multiple then old(selectedFiles) + valid else valid) &&
                previews == (if showPreview then Refreshed(old(previews), selectedFiles) else old(previews)) &&
                notice == (if multiple then WithList(selectedFiles) else WithFile(valid[0]))
    {
      error := "";
      var valid := CheckFiles(files);
      if |valid| > 0 {
        var newFiles := if multiple then selectedFiles + valid else valid;
        selectedFiles := newFiles;
        if showPreview {
          GeneratePreviews(newFiles);
        }
        notice := if multiple then WithList(newFiles) else WithFile(newFiles[0]);
      } else {
        notice := NotCalled;
      }
    }

    /** The `files.filter(...)` of `handleFiles`: each rejected file sets the error as it is met. */
    method CheckFiles(files: seq<File>) returns (valid: seq<File>)
      modifies this
      ensures valid == Filter(files, Passes(acceptedTypes, maxSize))
      ensures error == LastRejection(acceptedTypes, maxSize, files).GetOr(old(error))
      ensures selectedFiles == old(selectedFiles) && previews == old(previews)
    {
      valid := [];
      var i := 0;
      while i < |files|
        invariant 0 <= i <= |files|
        invariant valid == Filter(files[..i], Passes(acceptedTypes, maxSize))
        invariant error == LastRejection(acceptedTypes, maxSize, files[..i]).GetOr(old(error))
        invariant selectedFiles == old(selectedFiles) && previews == old(previews)
      {
        var f := files[i];
        CheckStep(acceptedTypes, maxSize, files, i);
        var isValidType := TypeAccepted(acceptedTypes, f.mime);
        var isValidSize := SizeAccepted(maxSize, f.size);
        if !isValidType {
          error := TypeError(f.name);
        } else if !isValidSize {
          error := SizeError(f.name, maxSize);
        } else {
          valid := valid + [f];
        }
        i := i + 1;
      }
      assert files[..|files|] == files;
    }

    /** `generatePreviews`: one read per file, each replacing that file's preview when it finishes. */
    method GeneratePreviews(files: seq<File>)
      modifies this
      ensures previews == Refreshed(old(previews), files)
      ensures selectedFiles == old(selectedFiles) && error == old(error)
    {
      var i := 0;
      while i < |files|
        invariant 0 <= i <= |files|
        invariant previews == Refreshed(old(previews), files[..i])
        invariant selectedFiles == old(selectedFiles) && error == old(error)
      {
        var f := files[i];
        assert files[..i + 1][..i] == files[..i];
        var preview := Preview(f, KindOf(f.mime));
        previews := Filter(previews, NotOf(f)) + [preview];
        i := i + 1;
      }
      assert files[..|files|] == files;
    }

    /**
     * `removeFile`: the file leaves the selection and the previews, the error
     * is cleared, and `onFileSelect` gets the rest (multiple) or null.
     */
    method RemoveFile(f: File) returns (notice: Notice)
      modifies this
      ensures selectedFiles == Filter(old(selectedFiles), (g: File) => g != f)
      ensures previews == Filter(old(previews), NotOf(f))
      ensures error == ""
      ensures notice == if multiple then WithList(selectedFiles) else WithNull
    {
      var newFiles := Filter(selectedFiles, (g: File) => g != f);
      selectedFiles := newFiles;
      previews := Filter(previews, NotOf(f));
      notice := if multiple then WithList(newFiles) else WithNull;
      error := "";
    }
  }

  /** After `removeFile`, the file is nowhere in the selection and every other file keeps its place in order. */
  lemma RemovedFileGone(selected: seq<File>, f: File, g: File)
    ensures g in Filter(selected, (x: File) => x != f) <==> g in selected && g != f
    ensures IsSubsequence(Filter(selected, (x: File) => x != f), selected)
  {
    FilterMembership(selected, (x: File) => x != f, g);
    FilterIsSubsequence(selected, (x: File) => x != f);
  }

  /** The accepted files are exactly those passing both checks, in their order. */
  lemma AcceptedFiles(acceptedTypes: seq<string>, maxSize: nat, files: seq<File>, f: File)
    ensures f in Filter(files, Passes(acceptedTypes, maxSize)) <==>
            f in files && TypeAccepted(acceptedTypes, f.mime) && SizeAccepted(maxSize, f.size)
    ensures IsSubsequence(Filter(files, Passes(acceptedTypes, maxSize)), files)
  {
    FilterMembership(files, Passes(acceptedTypes, maxSize), f);
    FilterIsSubsequence(files, Passes(acceptedTypes, maxSize));
  }
}
