/**
 * The decisions of the PDF step: the page size handed to the transcoder for one
 * page, and, for a whole notebook, the merged file's path and the per-page files
 * fed to the merger. The transcoder, the merger and the file system are outside
 * the model; what they do is given as parameters.
 */
module Svg2Pdf {
  import opened Wrappers
  import opened JavaInt
  import opened PageModel
  import opened ContentModel
  import SvgDocument

  /** Pixels to millimetres: the transcoder's default unit size (96 dpi). */
  const Ratio: real := 0.264583

  /** The width and height hints given to the transcoder. */
  datatype PdfHints = PdfHints(width: real, height: real)

  /** Only the exact string "portrait" keeps the page's own dimensions; every other
      orientation string swaps them. */
  function TranscodingHints(h: Int32, v: Int32, orientation: string): (r: PdfHints)
    ensures orientation == "portrait" ==> r.width * Ratio == h as real && r.height * Ratio == v as real
    ensures orientation != "portrait" ==> r.width * Ratio == v as real && r.height * Ratio == h as real
  {
    if orientation == "portrait" then PdfHints(h as real / Ratio, v as real / Ratio)
    else PdfHints(v as real / Ratio, h as real / Ratio)
  }

  /** What can go wrong while converting one page, in the order the code meets it. */
  datatype ConvertFailure =
    | SvgMissing          // the page's SVG file cannot be opened
    | PdfUnwritable       // the page's PDF file cannot be created
    | TranscoderFailed    // the transcoder rejects the drawing

  /** What the file system and the transcoder do for one page. */
  datatype ConvertEnv = ConvertEnv(svgReadable: bool, pdfWritable: bool, transcodes: bool)

  datatype ConvertOutcome =
    | Transcoded(hints: PdfHints)
    | Reported(failure: ConvertFailure)   // caught and logged
    | NullOrientation                     // the orientation lookup dereferences null; this escapes

  /** `convert(page)`: open the input, create the output, choose the hints from the
      notebook's orientation, transcode. The orientation is `None` when the page
      has no notebook or the notebook no orientation. */
  function Convert(page: Page, orientation: Option<string>, env: ConvertEnv): (r: ConvertOutcome)
    ensures r.Transcoded? <==> env.svgReadable && env.pdfWritable && orientation.Some? && env.transcodes
    ensures r.Transcoded? ==> r.hints == TranscodingHints(page.horizontal, page.vertical, orientation.value)
    ensures r == Reported(SvgMissing) <==> !env.svgReadable
    ensures r == Reported(PdfUnwritable) <==> env.svgReadable && !env.pdfWritable
    ensures r == Reported(TranscoderFailed) <==> env.svgReadable && env.pdfWritable && orientation.Some? && !env.transcodes
    ensures r.NullOrientation? <==> env.svgReadable && env.pdfWritable && orientation.None?
  {
    if !env.svgReadable then Reported(SvgMissing)
    else if !env.pdfWritable then Reported(PdfUnwritable)
    else if orientation.None? then NullOrientation
    else
      var hints := TranscodingHints(page.horizontal, page.vertical, orientation.value);
      if env.transcodes then Transcoded(hints) else Reported(TranscoderFailed)
  }

  /** The folder part of the merged file's path: every folder followed by a separator. */
  function FolderPath(folders: seq<string>, sep: char): (r: string)
    ensures |folders| == 0 ==> r == []
    ensures |folders| > 0 ==> |r| > 0 && r[|r| - 1] == sep
  {
    if |folders| == 0 then []
    else FolderPath(folders[..|folders| - 1], sep) + folders[|folders| - 1] + [sep]
  }

  /** The merged notebook's file: export folder, folders, name, `_HD.pdf`. */
  function MergeDestination(exportFolder: string, sep: char, notebook: Content): string
  {
    exportFolder + [sep] + FolderPath(notebook.folders, sep) + notebook.name + "_HD.pdf"
  }

  /** No separator directly follows another. */
  predicate NoDoubledSeparator(s: string, sep: char)
  {
    forall i :: 0 <= i < |s| - 1 ==> !(s[i] == sep && s[i + 1] == sep)
  }

  /** The characters of `s` other than separators, in order. */
  function WithoutSeparators(s: string, sep: char): string
  {
    if |s| == 0 then []
    else (if s[0] == sep then [] else [s[0]]) + WithoutSeparators(s[1..], sep)
  }

  /** Every run of separators reduced to one, as `java.io.File` does on Unix. */
  function CollapseSeparators(s: string, sep: char): (r: string)
    ensures |r| <= |s|
    ensures |s| > 0 ==> |r| > 0 && r[0] == s[0] && r[|r| - 1] == s[|s| - 1]
    decreases |s|
  {
    if |s| < 2 then s
    else if s[0] == sep && s[1] == sep then CollapseSeparators(s[1..], sep)
    else [s[0]] + CollapseSeparators(s[1..], sep)
  }

  /** `new File(name).getPath()` on Unix: runs of separators collapsed and a
      trailing separator dropped, unless the path is the separator alone. */
  function NormalizePath(s: string, sep: char): string
  {
    var c := CollapseSeparators(s, sep);
    if |c| > 1 && c[|c| - 1] == sep then c[..|c| - 1] else c
  }

  /** The directory created before merging, only when the notebook lies in folders. */
  function MergeDirectory(exportFolder: string, sep: char, notebook: Content): (r: Option<string>)
    ensures r.Some? <==> |notebook.folders| > 0
    ensures r.Some? ==> (MergeDestination(exportFolder, sep, notebook)
                         == r.value + notebook.name + "_HD.pdf")
  {
    if |notebook.folders| > 0 then Some(exportFolder + [sep] + FolderPath(notebook.folders, sep)) else None
  }

  /** The per-page PDF files, in page-list order. `fileOf` stands for the file-name
      helper, which is not part of this model. */
  function PageFiles(pages: seq<Page>, fileOf: Page -> string): (r: seq<string>)
    ensures |r| == |pages|
    ensures forall i :: 0 <= i < |pages| ==> r[i] == fileOf(pages[i])
  {
    if |pages| == 0 then []
    else PageFiles(pages[..|pages| - 1], fileOf) + [fileOf(pages[|pages| - 1])]
  }

  /** Reference definition of the sources: the files that exist, in the given order. */
  function Present(files: seq<string>, existing: set<string>): seq<string>
  {
    if |files| == 0 then []
    else Present(files[..|files| - 1], existing)
         + (if files[|files| - 1] in existing then [files[|files| - 1]] else [])
  }

  /** The outcome of `mergeDocuments`: `mergeOk` stands for whether the merger
      succeeds. A failure is logged, never thrown. */
  datatype MergeStatus = Merged | MergeReported

  datatype MergePlan = MergePlan(
    directory: Option<string>,
    destination: string,
    sources: seq<string>,
    status: MergeStatus)

  /** `merge(notebook)`: the directory (made only for a notebook in folders) and
      the destination are the joined paths as `java.io.File` normalizes them; one `addSource` per page in list order; a file that does
      not exist raises `FileNotFoundException`, which is swallowed, so the page is
      skipped and the loop goes on. */
  method Merge(exportFolder: string, sep: char, notebook: Content, fileOf: Page -> string,
               existing: set<string>, mergeOk: bool)
    returns (plan: MergePlan)
    ensures plan.directory.Some? <==> |notebook.folders| > 0
    ensures plan.directory.Some? ==>
      plan.directory.value == NormalizePath(MergeDirectory(exportFolder, sep, notebook).value, sep)
    ensures plan.destination == NormalizePath(MergeDestination(exportFolder, sep, notebook), sep)
    ensures plan.sources == Present(PageFiles(notebook.pages, fileOf), existing)
    ensures plan.status == (if mergeOk then Merged else MergeReported)
  {
    var directory: Option<string> := None;
    if |notebook.folders| > 0 {
      directory := Some(NormalizePath(MergeDirectory(exportFolder, sep, notebook).value, sep));
    }
    var destination := NormalizePath(MergeDestination(exportFolder, sep, notebook), sep);
    var files := PageFiles(notebook.pages, fileOf);
    var sources := [];
    var i := 0;
    while i < |notebook.pages|
      invariant 0 <= i <= |notebook.pages|
      invariant sources == Present(files[..i], existing)
    {
      var file := fileOf(notebook.pages[i]);
      assert files[..i + 1][..i] == files[..i];
      if file in existing {
        sources := sources + [file];
      }
      i := i + 1;
    }
    assert files[..i] == files;
    plan := MergePlan(directory, destination, sources, if mergeOk then Merged else MergeReported);
  }

  // ---------------------------------------------------------------------------
  // Properties.
  // ---------------------------------------------------------------------------

  /** Both orientations divide by the same ratio; the other orientation gives the
      same two numbers with width and height exchanged. */
  lemma HintsSwap(h: Int32, v: Int32, other: string)
    requires other != "portrait"
    ensures TranscodingHints(h, v, other).width == TranscodingHints(h, v, "portrait").height
    ensures TranscodingHints(h, v, other).height == TranscodingHints(h, v, "portrait").width
  {
  }

  /** The PDF page has the proportions of the SVG canvas: scaled back by the ratio,
      the hints are the canvas dimensions of the matching rendering. */
  lemma HintsMatchCanvas(page: Page, orientation: string)
    ensures var o := if orientation == "portrait" then SvgDocument.Portrait else SvgDocument.Landscape;
      var hints := TranscodingHints(page.horizontal, page.vertical, orientation);
      SvgDocument.Canvas(page, o)
        == SvgDocument.SvgOpen((hints.width * Ratio).Floor, (hints.height * Ratio).Floor)
  {
  }

  /** The standard 1404 by 1872 page in portrait gives hints of about 5306.46 by
      7075.28 units. */
  lemma StandardPortraitHints()
    ensures var hints := TranscodingHints(1404, 1872, "portrait");
      5306.46 < hints.width < 5306.47 && 7075.28 < hints.height < 7075.29
  {
  }

  /** A page's file is among the sources exactly when it exists. */
  lemma {:induction false} PresentMembers(files: seq<string>, existing: set<string>, f: string)
    ensures f in Present(files, existing) <==> f in files && f in existing
    decreases |files|
  {
    if |files| > 0 {
      var init := files[..|files| - 1];
      PresentMembers(init, existing, f);
      assert files == init + [files[|files| - 1]];
    }
  }

  /** The sources keep the page-list order: the sources of any prefix of the pages
      are a prefix of all sources. */
  lemma {:induction false} PresentKeepsOrder(files: seq<string>, existing: set<string>, k: nat)
    requires k <= |files|
    ensures Present(files[..k], existing) <= Present(files, existing)
    decreases |files|
  {
    if k < |files| {
      var init := files[..|files| - 1];
      assert files[..k] == init[..k];
      PresentKeepsOrder(init, existing, k);
    } else {
      assert files[..k] == files;
    }
  }

  /** With every file present, the sources are all page files in order. */
  lemma {:induction false} AllPresent(files: seq<string>, existing: set<string>)
    requires forall i :: 0 <= i < |files| ==> files[i] in existing
    ensures Present(files, existing) == files
    decreases |files|
  {
    if |files| > 0 {
      var init := files[..|files| - 1];
      AllPresent(init, existing);
      assert files == init + [files[|files| - 1]];
    }
  }

  /** Three pages whose middle file is missing merge the first and the last, in
      that order. */
  lemma MiddlePageMissing(f0: string, f1: string, f2: string, existing: set<string>)
    requires f0 in existing && f1 !in existing && f2 in existing
    ensures Present([f0, f1, f2], existing) == [f0, f2]
  {
    assert [f0, f1, f2][..2] == [f0, f1];
    assert [f0, f1][..1] == [f0];
    assert [f0][..0] == [];
    assert Present([f0], existing) == [f0];
    assert Present([f0, f1], existing) == [f0];
  }

  /** A notebook at the top level merges straight into the export folder. */
  lemma TopLevelDestination(exportFolder: string, sep: char, notebook: Content)
    requires |notebook.folders| == 0
    ensures MergeDestination(exportFolder, sep, notebook) == exportFolder + [sep] + notebook.name + "_HD.pdf"
    ensures MergeDirectory(exportFolder, sep, notebook) == None
  {
  }

  /** Each folder contributes its name and one separator, in order. */
  lemma FolderPathSnoc(folders: seq<string>, f: string, sep: char)
    ensures FolderPath(folders + [f], sep) == FolderPath(folders, sep) + f + [sep]
  {
    assert (folders + [f])[..|folders|] == folders;
  }

  /** Collapsing leaves no doubled separator. */
  lemma {:induction false} CollapseNoDoubled(s: string, sep: char)
    ensures NoDoubledSeparator(CollapseSeparators(s, sep), sep)
    decreases |s|
  {
    if |s| >= 2 {
      CollapseNoDoubled(s[1..], sep);
      if !(s[0] == sep && s[1] == sep) {
        var r := CollapseSeparators(s[1..], sep);
        assert r[0] == s[1];
        assert forall i :: 1 <= i < |[s[0]] + r| ==> ([s[0]] + r)[i] == r[i - 1];
      }
    }
  }

  /** Collapsing drops separators only: every other character stays, in order. */
  lemma {:induction false} CollapseKeepsNames(s: string, sep: char)
    ensures WithoutSeparators(CollapseSeparators(s, sep), sep) == WithoutSeparators(s, sep)
    decreases |s|
  {
    if |s| >= 2 {
      CollapseKeepsNames(s[1..], sep);
      var r := CollapseSeparators(s[1..], sep);
      if !(s[0] == sep && s[1] == sep) {
        assert ([s[0]] + r)[1..] == r;
      }
    }
  }

  lemma NoDoubledTail(s: string, sep: char)
    requires |s| > 0 && NoDoubledSeparator(s, sep)
    ensures NoDoubledSeparator(s[1..], sep)
  {
    forall i | 0 <= i < |s[1..]| - 1 ensures !(s[1..][i] == sep && s[1..][i + 1] == sep) {
      assert s[1..][i] == s[i + 1] && s[1..][i + 1] == s[i + 2];
    }
  }

  /** Joining a path that ends in a separator to one that starts with a separator
      keeps only one of the two. */
  lemma {:induction false} CollapseJoin(a: string, b: string, sep: char)
    requires |a| > 0 && a[|a| - 1] == sep && |b| > 0 && b[0] == sep
    requires NoDoubledSeparator(a, sep) && NoDoubledSeparator(b, sep)
    ensures CollapseSeparators(a + b, sep) == a + b[1..]
    decreases |a|
  {
    if |a| == 1 {
      assert (a + b)[1..] == b;
      CollapseClean(b, sep);
      assert a + b[1..] == b;
    } else {
      assert (a + b)[1..] == a[1..] + b;
      NoDoubledTail(a, sep);
      CollapseJoin(a[1..], b, sep);
      assert !(a[0] == sep && a[1] == sep);
      assert a + b[1..] == [a[0]] + (a[1..] + b[1..]);
    }
  }

  /** A path without doubled separators is left as it is by collapsing. */
  lemma {:induction false} CollapseClean(s: string, sep: char)
    requires NoDoubledSeparator(s, sep)
    ensures CollapseSeparators(s, sep) == s
    decreases |s|
  {
    if |s| >= 2 {
      NoDoubledTail(s, sep);
      CollapseClean(s[1..], sep);
      assert !(s[0] == sep && s[1] == sep);
      assert s == [s[0]] + s[1..];
    }
  }

  lemma WithoutSeparatorsOfPrefix(s: string, sep: char)
    requires |s| > 0 && s[|s| - 1] == sep
    ensures WithoutSeparators(s[..|s| - 1], sep) == WithoutSeparators(s, sep)
    decreases |s|
  {
    if |s| > 1 {
      WithoutSeparatorsOfPrefix(s[1..], sep);
      assert s[1..][..|s[1..]| - 1] == s[..|s| - 1][1..];
    }
  }

  /** The normalized path has no doubled separator, ends in one only when it is
      the separator alone, and keeps every other character of the joined path in
      order. */
  lemma NormalizedPath(s: string, sep: char)
    ensures var n := NormalizePath(s, sep);
      && NoDoubledSeparator(n, sep)
      && (|n| > 1 ==> n[|n| - 1] != sep)
      && WithoutSeparators(n, sep) == WithoutSeparators(s, sep)
  {
    var c := CollapseSeparators(s, sep);
    CollapseNoDoubled(s, sep);
    CollapseKeepsNames(s, sep);
    if |c| > 1 && c[|c| - 1] == sep {
      WithoutSeparatorsOfPrefix(c, sep);
      assert c[|c| - 2] != sep;
    }
  }

  /** Normalizing twice is normalizing once. */
  lemma NormalizeIdempotent(s: string, sep: char)
    ensures NormalizePath(NormalizePath(s, sep), sep) == NormalizePath(s, sep)
  {
    var n := NormalizePath(s, sep);
    NormalizedPath(s, sep);
    CollapseClean(n, sep);
  }

  /** An export folder given with a trailing separator does not double it in the
      merged file's path. */
  lemma TrailingExportSeparator(notebook: Content)
    requires notebook.folders == [] && notebook.name == "x"
    ensures MergeDestination("exports/", '/', notebook) == "exports//x_HD.pdf"
    ensures NormalizePath(MergeDestination("exports/", '/', notebook), '/') == "exports/x_HD.pdf"
  {
    var a, b := "exports/", "/x_HD.pdf";
    assert MergeDestination("exports/", '/', notebook) == a + b;
    CollapseJoin(a, b, '/');
    assert a + b[1..] == "exports/x_HD.pdf";
  }
}
