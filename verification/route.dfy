/**
 * The merge route's handler with the HTTP layer removed: validate the
 * batch, build the merged document, save it once. Every engine failure
 * becomes the single server-side error.
 */
module MergeRoute {
  import opened Wrappers
  import opened Upload
  import opened Engine
  import opened Validator
  import opened Assembler

  /** What the handler answers, and the engine calls it made to get there. */
  datatype Response = Response(outcome: Result<Bytes, MergeError>, calls: seq<EngineCall>)

  /** The handler: validation first, then assembly, then one save of the finished page list. */
  function Post(eng: Engine, files: seq<UploadedFile>): (r: Response)
    ensures Validate(files).Fail? ==> r.outcome == Failure(Validate(files).error) && r.calls == []
    ensures r.calls != [] ==> Validate(files) == Pass && r.calls[0] == CreateDocument
    ensures r.outcome.Success? <==>
              && Validate(files) == Pass
              && Expand(eng, files).Some?
              && eng.save(Expand(eng, files).value).Some?
    ensures r.outcome.Success? ==> r.outcome.value == eng.save(Expand(eng, files).value).value
    ensures r.outcome == Failure(MergeFailed) <==>
              && Validate(files) == Pass
              && (Expand(eng, files).None? || eng.save(Expand(eng, files).value).None?)
    ensures SaveDocument in r.calls <==> Validate(files) == Pass && Expand(eng, files).Some?
    ensures SaveDocument in r.calls ==>
              r.calls == [CreateDocument] + ItemCalls(files, 0, |files|) + [SaveDocument]
  {
    match Validate(files)
    case Fail(e) => Response(Failure(e), [])
    case Pass =>
      var a := Assemble(eng, files);
      AssembleComputesExpand(eng, files);
      AssembleCalls(eng, files);
      match a.pages
      case None => Response(Failure(MergeFailed), a.calls)
      case Some(pages) =>
        var calls := a.calls + [SaveDocument];
        match eng.save(pages)
        case None => Response(Failure(MergeFailed), calls)
        case Some(bytes) => Response(Success(bytes), calls)
  }

  /**
   * One file the engine cannot parse or decode fails the whole request with
   * the server error; nothing is saved, so there is no partial document.
   */
  lemma AnyFailingFileFailsRequest(eng: Engine, files: seq<UploadedFile>, k: nat)
    requires Validate(files) == Pass
    requires k < |files| && Contribution(eng, files[k]).None?
    ensures Post(eng, files).outcome == Failure(MergeFailed)
    ensures SaveDocument !in Post(eng, files).calls
  {
    ExpandFailsIff(eng, files);
  }

  /**
   * Merging a single acceptable PDF saves exactly copies of its pages, all
   * of them and in their original order.
   */
  lemma SinglePdfRoundTrip(eng: Engine, f: UploadedFile, src: seq<SourcePage>)
    requires f.mediaType == PdfType && f.size <= MaxFileSize
    requires eng.load(f.bytes) == Some(src)
    ensures Expand(eng, [f]) == Some(CopyAll(src))
    ensures Post(eng, [f]).outcome ==
              match eng.save(CopyAll(src))
              case None => Failure(MergeFailed)
              case Some(bytes) => Success(bytes)
  {
    assert [f][1..] == [];
    assert CopyAll(src) + [] == CopyAll(src);
    assert [f][..0] == [];
    assert TotalSize([f]) == f.size;
    assert NoneOversized([f]);
  }

  /**
   * The status of a failed request: 500 exactly when validation passed and
   * the failure came from the document work, 400 for every validation refusal.
   */
  lemma FailureStatus(eng: Engine, files: seq<UploadedFile>)
    ensures Post(eng, files).outcome.Failure? ==>
              (Status(Post(eng, files).outcome.error) == 500 <==> Validate(files) == Pass)
    ensures Post(eng, files).outcome.Failure? ==>
              (Status(Post(eng, files).outcome.error) == 400 <==> Validate(files).Fail?)
  {
  }
}
