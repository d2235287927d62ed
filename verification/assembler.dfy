/**
 * The second half of the merge route: each uploaded file, in upload order,
 * is dispatched on its declared media type and contributes either all pages
 * of a source PDF or one page holding an image; a failure of any file
 * aborts the assembly.
 */
module Assembler {
  import opened Wrappers
  import opened Upload
  import opened Engine

  const PdfType: string := "application/pdf"
  const PngType: string := "image/png"

  /** The two processing paths; an image path knows which decoder it uses. */
  datatype Route = PdfRoute | ImageRoute(format: ImageFormat)

  /**
   * Dispatch on the declared media type. It is total: anything that is
   * neither a PDF nor a PNG is decoded as a JPEG.
   */
  function RouteOf(mediaType: string): (r: Route)
    ensures r == PdfRoute <==> mediaType == PdfType
    ensures r == ImageRoute(Png) <==> mediaType == PngType
    ensures r == ImageRoute(Jpeg) <==> mediaType != PdfType && mediaType != PngType
  {
    if mediaType == PdfType then PdfRoute
    else if mediaType == PngType then ImageRoute(Png)
    else ImageRoute(Jpeg)
  }

  /**
   * `p` is the page synthesized for `img`: exactly the image's pixel size,
   * with the image drawn at the origin at its natural size, filling the page.
   */
  predicate FillsPage(p: OutPage, img: EmbeddedImage)
  {
    && p.ImagePage?
    && p.image == img
    && p.width == img.size.width && p.height == img.size.height
    && p.placement.x == 0 && p.placement.y == 0
    && p.placement.width == p.width && p.placement.height == p.height
  }

  /** The copies of a source document's pages, in the source's own order. */
  function CopyAll(src: seq<SourcePage>): (r: seq<OutPage>)
    ensures |r| == |src|
    ensures forall k :: 0 <= k < |src| ==> r[k] == CopiedPage(src[k])
  {
    seq(|src|, k requires 0 <= k < |src| => CopiedPage(src[k]))
  }

  /** The page-copy path: every page of the parsed source PDF, in its order. */
  function PdfPages(eng: Engine, bytes: Bytes): (r: Option<seq<OutPage>>)
    ensures r.Some? <==> eng.load(bytes).Some?
    ensures r.Some? ==> |r.value| == |eng.load(bytes).value|
    ensures r.Some? ==> forall k :: 0 <= k < |r.value| ==> r.value[k] == CopiedPage(eng.load(bytes).value[k])
  {
    match eng.load(bytes)
    case None => None
    case Some(src) => Some(CopyAll(src))
  }

  /** The image-embed path: one new page that the decoded image fills. */
  function ImagePages(eng: Engine, format: ImageFormat, bytes: Bytes): (r: Option<seq<OutPage>>)
    ensures r.Some? <==> eng.embed(format, bytes).Some?
    ensures r.Some? ==> |r.value| == 1 && FillsPage(r.value[0], EmbeddedImage(format, bytes, eng.embed(format, bytes).value))
  {
    match eng.embed(format, bytes)
    case None => None
    case Some(d) =>
      var img := EmbeddedImage(format, bytes, d);
      Some([ImagePage(d.width, d.height, img, Placement(0, 0, d.width, d.height))])
  }

  /** The pages one file adds to the merged document, or None when the engine fails on it. */
  function Contribution(eng: Engine, f: UploadedFile): (r: Option<seq<OutPage>>)
    ensures f.mediaType == PdfType ==> (r.Some? <==> eng.load(f.bytes).Some?)
    ensures f.mediaType == PdfType && r.Some? ==> r.value == CopyAll(eng.load(f.bytes).value)
    ensures f.mediaType != PdfType ==>
              var format := if f.mediaType == PngType then Png else Jpeg;
              && (r.Some? <==> eng.embed(format, f.bytes).Some?)
              && (r.Some? ==> |r.value| == 1 &&
                              FillsPage(r.value[0], EmbeddedImage(format, f.bytes, eng.embed(format, f.bytes).value)))
  {
    match RouteOf(f.mediaType)
    case PdfRoute => PdfPages(eng, f.bytes)
    case ImageRoute(format) => ImagePages(eng, format, f.bytes)
  }

  /** A successful file adds its page count: all source pages for a PDF, one page for an image. */
  lemma ContributionPageCount(eng: Engine, f: UploadedFile)
    requires Contribution(eng, f).Some?
    ensures |Contribution(eng, f).value| == PageCount(eng, f)
  {
  }

  /** The engine call that processes the file at position `i`. */
  function CallFor(f: UploadedFile, i: nat): EngineCall
  {
    match RouteOf(f.mediaType)
    case PdfRoute => LoadPdf(i)
    case ImageRoute(format) => EmbedImage(i, format)
  }

  /** The calls made for the files at positions `from` up to, excluding, `to`. */
  function ItemCalls(files: seq<UploadedFile>, from: nat, to: nat): (r: seq<EngineCall>)
    requires from <= to <= |files|
    ensures |r| == to - from
    ensures forall j :: 0 <= j < |r| ==> r[j] == CallFor(files[from + j], from + j)
    ensures SaveDocument !in r && CreateDocument !in r
  {
    seq(to - from, j requires 0 <= j < to - from => CallFor(files[from + j], from + j))
  }

  /** The output document's pages so far, or None once a file failed, and the calls made. */
  datatype Assembly = Assembly(pages: Option<seq<OutPage>>, calls: seq<EngineCall>)

  /**
   * The route's loop over the files from position `i` on: `pages` is what the
   * merged document holds so far and `calls` the engine calls made so far.
   */
  function AssembleFrom(eng: Engine, files: seq<UploadedFile>, i: nat, pages: seq<OutPage>, calls: seq<EngineCall>): Assembly
    requires i <= |files|
    decreases |files| - i
  {
    if i == |files| then Assembly(Some(pages), calls)
    else
      var calls' := calls + [CallFor(files[i], i)];
      match Contribution(eng, files[i])
      case None => Assembly(None, calls')
      case Some(ps) => AssembleFrom(eng, files, i + 1, pages + ps, calls')
  }

  /** The whole loop, starting from a freshly created empty document. */
  function Assemble(eng: Engine, files: seq<UploadedFile>): Assembly
  {
    AssembleFrom(eng, files, 0, [], [CreateDocument])
  }

  /**
   * Reference definition of the merged page list: the contributions of the
   * files concatenated in upload order, or None if any file fails.
   */
  function Expand(eng: Engine, files: seq<UploadedFile>): Option<seq<OutPage>>
    decreases |files|
  {
    if files == [] then Some([])
    else
      Join(Contribution(eng, files[0]), Expand(eng, files[1..]))
  }

  /** Both page lists, concatenated, when neither is missing. */
  function Join(a: Option<seq<OutPage>>, b: Option<seq<OutPage>>): Option<seq<OutPage>>
  {
    if a.Some? && b.Some? then Some(a.value + b.value) else None
  }

  /** How many pages one file contributes when it succeeds: its page count for a PDF, one for an image. */
  function PageCount(eng: Engine, f: UploadedFile): nat
  {
    match RouteOf(f.mediaType)
    case PdfRoute => (match eng.load(f.bytes) case None => 0 case Some(src) => |src|)
    case ImageRoute(_) => 1
  }

  /** Sum of the files' page counts, front to back. */
  function PageTotal(eng: Engine, files: seq<UploadedFile>): nat
    decreases |files|
  {
    if files == [] then 0 else PageCount(eng, files[0]) + PageTotal(eng, files[1..])
  }

  /** `files[k]` is the first file from position `i` on that the engine fails on. */
  predicate FirstFailureFrom(eng: Engine, files: seq<UploadedFile>, i: int, k: int)
  {
    && 0 <= i <= k < |files|
    && Contribution(eng, files[k]).None?
    && forall j :: i <= j < k ==> Contribution(eng, files[j]).Some?
  }

  /** The route's loop builds exactly the reference page list. */
  lemma {:induction false} AssembleFromMatchesExpand(eng: Engine, files: seq<UploadedFile>, i: nat, pages: seq<OutPage>, calls: seq<EngineCall>)
    requires i <= |files|
    ensures AssembleFrom(eng, files, i, pages, calls).pages == Join(Some(pages), Expand(eng, files[i..]))
    decreases |files| - i
  {
    if i == |files| {
      assert files[i..] == [];
      assert pages + [] == pages;
    } else {
      var rest := files[i..];
      assert rest[0] == files[i] && rest[1..] == files[i + 1..];
      match Contribution(eng, files[i])
      case None =>
      case Some(ps) =>
        AssembleFromMatchesExpand(eng, files, i + 1, pages + ps, calls + [CallFor(files[i], i)]);
        match Expand(eng, files[i + 1..])
        case None =>
        case Some(tail) =>
          assert (pages + ps) + tail == pages + (ps + tail);
    }
  }

  /** On success the merged pages are the concatenated contributions, whichever definition is used. */
  lemma AssembleComputesExpand(eng: Engine, files: seq<UploadedFile>)
    ensures Assemble(eng, files).pages == Expand(eng, files)
  {
    AssembleFromMatchesExpand(eng, files, 0, [], [CreateDocument]);
    assert files[0..] == files;
    match Expand(eng, files)
    case None =>
    case Some(out) =>
      assert [] + out == out;
  }

  lemma ItemCallsStep(files: seq<UploadedFile>, from: nat, to: nat)
    requires from < to <= |files|
    ensures ItemCalls(files, from, to) == [CallFor(files[from], from)] + ItemCalls(files, from + 1, to)
  {
  }

  /** A loop that gets through every file has processed each of them once, in order. */
  lemma {:induction false} AssembleFromCallsOnSuccess(eng: Engine, files: seq<UploadedFile>, i: nat, pages: seq<OutPage>, calls: seq<EngineCall>)
    requires i <= |files|
    requires AssembleFrom(eng, files, i, pages, calls).pages.Some?
    ensures forall j :: i <= j < |files| ==> Contribution(eng, files[j]).Some?
    ensures AssembleFrom(eng, files, i, pages, calls).calls == calls + ItemCalls(files, i, |files|)
    decreases |files| - i
  {
    if i == |files| {
      assert calls + [] == calls;
    } else {
      var call := CallFor(files[i], i);
      var ps := Contribution(eng, files[i]).value;
      AssembleFromCallsOnSuccess(eng, files, i + 1, pages + ps, calls + [call]);
      ItemCallsStep(files, i, |files|);
      assert calls + [call] + ItemCalls(files, i + 1, |files|) == calls + ItemCalls(files, i, |files|);
    }
  }

  /**
   * A loop that fails stops at the first file the engine fails on: no later
   * file is loaded or embedded.
   */
  lemma {:induction false} AssembleFromCallsOnFailure(eng: Engine, files: seq<UploadedFile>, i: nat, pages: seq<OutPage>, calls: seq<EngineCall>)
    requires i <= |files|
    requires AssembleFrom(eng, files, i, pages, calls).pages.None?
    ensures exists k :: && FirstFailureFrom(eng, files, i, k)
                        && AssembleFrom(eng, files, i, pages, calls).calls == calls + ItemCalls(files, i, k + 1)
    decreases |files| - i
  {
    var call := CallFor(files[i], i);
    ItemCallsStep(files, i, i + 1);
    if Contribution(eng, files[i]).None? {
      assert ItemCalls(files, i, i + 1) == [call];
      assert FirstFailureFrom(eng, files, i, i);
    } else {
      var ps := Contribution(eng, files[i]).value;
      var a := AssembleFrom(eng, files, i + 1, pages + ps, calls + [call]);
      AssembleFromCallsOnFailure(eng, files, i + 1, pages + ps, calls + [call]);
      var k :| FirstFailureFrom(eng, files, i + 1, k) && a.calls == calls + [call] + ItemCalls(files, i + 1, k + 1);
      assert FirstFailureFrom(eng, files, i, k);
      ItemCallsStep(files, i, k + 1);
      assert calls + [call] + ItemCalls(files, i + 1, k + 1) == calls + ItemCalls(files, i, k + 1);
    }
  }

  /**
   * The engine calls of the whole loop: the document is created first, then
   * every file is processed once in order on success; on failure the calls
   * end with the first failing file.
   */
  lemma AssembleCalls(eng: Engine, files: seq<UploadedFile>)
    ensures Assemble(eng, files).pages.Some? ==>
              Assemble(eng, files).calls == [CreateDocument] + ItemCalls(files, 0, |files|)
    ensures Assemble(eng, files).pages.None? ==>
              exists k :: FirstFailureFrom(eng, files, 0, k) &&
                          Assemble(eng, files).calls == [CreateDocument] + ItemCalls(files, 0, k + 1)
  {
    if Assemble(eng, files).pages.Some? {
      AssembleFromCallsOnSuccess(eng, files, 0, [], [CreateDocument]);
    } else {
      AssembleFromCallsOnFailure(eng, files, 0, [], [CreateDocument]);
    }
  }

  /** The merge fails exactly when the engine fails on at least one file. */
  lemma {:induction false} ExpandFailsIff(eng: Engine, files: seq<UploadedFile>)
    ensures Expand(eng, files).None? <==> exists k :: 0 <= k < |files| && Contribution(eng, files[k]).None?
    decreases |files|
  {
    if files != [] {
      ExpandFailsIff(eng, files[1..]);
      if Contribution(eng, files[0]).Some? && Expand(eng, files[1..]).None? {
        var k :| 0 <= k < |files[1..]| && Contribution(eng, files[1..][k]).None?;
        assert files[k + 1] == files[1..][k];
      }
      if exists k :: 0 <= k < |files| && Contribution(eng, files[k]).None? {
        var k :| 0 <= k < |files| && Contribution(eng, files[k]).None?;
        if k > 0 {
          assert files[1..][k - 1] == files[k];
        }
      }
    }
  }

  /** Merging a batch made of two parts gives the first part's pages followed by the second's. */
  lemma {:induction false} ExpandAppend(eng: Engine, a: seq<UploadedFile>, b: seq<UploadedFile>)
    ensures Expand(eng, a + b) == Join(Expand(eng, a), Expand(eng, b))
    decreases |a|
  {
    if a == [] {
      assert a + b == b;
      if Expand(eng, b).Some? {
        assert [] + Expand(eng, b).value == Expand(eng, b).value;
      }
    } else {
      assert (a + b)[0] == a[0];
      assert (a + b)[1..] == a[1..] + b;
      ExpandAppend(eng, a[1..], b);
      JoinAssociative(Contribution(eng, a[0]), Expand(eng, a[1..]), Expand(eng, b));
    }
  }

  lemma JoinAssociative(x: Option<seq<OutPage>>, y: Option<seq<OutPage>>, z: Option<seq<OutPage>>)
    ensures Join(x, Join(y, z)) == Join(Join(x, y), z)
  {
    if x.Some? && y.Some? && z.Some? {
      assert x.value + (y.value + z.value) == (x.value + y.value) + z.value;
    }
  }

  /**
   * Reordering two blocks of files reorders their page ranges identically:
   * each block keeps its own pages and inner order.
   */
  lemma SwapBlocks(eng: Engine, a: seq<UploadedFile>, b: seq<UploadedFile>, pa: seq<OutPage>, pb: seq<OutPage>)
    requires Expand(eng, a) == Some(pa) && Expand(eng, b) == Some(pb)
    ensures Expand(eng, a + b) == Some(pa + pb)
    ensures Expand(eng, b + a) == Some(pb + pa)
  {
    ExpandAppend(eng, a, b);
    ExpandAppend(eng, b, a);
  }

  /** A successful merge has as many pages as the PDFs' page counts plus one per image. */
  lemma {:induction false} ExpandPageCount(eng: Engine, files: seq<UploadedFile>)
    requires Expand(eng, files).Some?
    ensures |Expand(eng, files).value| == PageTotal(eng, files)
    decreases |files|
  {
    if files != [] {
      ExpandPageCount(eng, files[1..]);
    }
  }

  /**
   * In a successful merge, the file at position `i` owns the page range
   * that starts after the pages of the files before it, and that range
   * holds exactly its contribution.
   */
  lemma ExpandPlacesEachItem(eng: Engine, files: seq<UploadedFile>, i: nat)
    requires Expand(eng, files).Some?
    requires i < |files|
    ensures Contribution(eng, files[i]).Some?
    ensures PageTotal(eng, files[..i]) <= PageTotal(eng, files[..i + 1]) <= |Expand(eng, files).value|
    ensures Expand(eng, files).value[PageTotal(eng, files[..i])..PageTotal(eng, files[..i + 1])]
            == Contribution(eng, files[i]).value
  {
    var out := Expand(eng, files).value;
    var f := files[i];
    assert files == files[..i + 1] + files[i + 1..];
    ExpandAppend(eng, files[..i + 1], files[i + 1..]);
    assert files[..i + 1] == files[..i] + [f];
    ExpandAppend(eng, files[..i], [f]);
    assert [f][1..] == [];
    var pre := Expand(eng, files[..i]).value;
    var mine := Contribution(eng, f).value;
    var post := Expand(eng, files[i + 1..]).value;
    assert mine + [] == mine;
    assert Expand(eng, files[..i + 1]).value == pre + mine;
    assert out == pre + mine + post;
    ExpandPageCount(eng, files[..i]);
    ExpandPageCount(eng, files[..i + 1]);
    assert out[|pre|..|pre| + |mine|] == mine;
  }
}
