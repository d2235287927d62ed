/**
 * The size checks the merge route runs before any document work: an empty
 * batch is refused, then the files are scanned in order with a running
 * total, the first file over the per-file limit is refused by name, and only
 * after the whole scan is the total compared with the batch limit.
 */
module Validator {
  import opened Wrappers
  import opened Upload

  /** Largest accepted size of one file: 5 MB. */
  const MaxFileSize: nat := 5 * 1024 * 1024

  /** Largest accepted sum of all sizes: 20 MB. */
  const MaxTotalSize: nat := 20 * 1024 * 1024

  /** A file strictly larger than the per-file limit; exactly 5 MB is accepted. */
  predicate Oversized(f: UploadedFile)
  {
    f.size > MaxFileSize
  }

  predicate NoneOversized(files: seq<UploadedFile>)
  {
    forall j :: 0 <= j < |files| ==> !Oversized(files[j])
  }

  /** `files[k]` is oversized and no earlier file is. */
  predicate FirstOversizedAt(files: seq<UploadedFile>, k: int)
  {
    && 0 <= k < |files|
    && Oversized(files[k])
    && forall j :: 0 <= j < k ==> !Oversized(files[j])
  }

  /** Sum of the reported sizes, added up front to back. */
  function TotalSize(files: seq<UploadedFile>): nat
  {
    if files == [] then 0 else TotalSize(files[..|files| - 1]) + files[|files| - 1].size
  }

  /**
   * The loop over the files from position `i` on, `total` being the running
   * sum of the sizes already seen. As in the route, the size is added to the
   * total before the file is compared with the per-file limit.
   */
  function Scan(files: seq<UploadedFile>, i: nat, total: nat): (r: Outcome<MergeError>)
    requires i <= |files|
    requires total == TotalSize(files[..i])
    requires NoneOversized(files[..i])
    decreases |files| - i
    ensures r == Pass <==> NoneOversized(files) && TotalSize(files) <= MaxTotalSize
    ensures r == Fail(TotalTooLarge) <==> NoneOversized(files) && TotalSize(files) > MaxTotalSize
    ensures r.Pass? || r == Fail(TotalTooLarge) || r.error.FileTooLarge?
    ensures r.Fail? && r.error.FileTooLarge? ==>
              exists k :: i <= k < |files| && FirstOversizedAt(files, k) && r.error.name == files[k].name
  {
    if i == |files| then
      assert files[..i] == files;
      if total > MaxTotalSize then Fail(TotalTooLarge) else Pass
    else
      var total' := total + files[i].size;
      if Oversized(files[i]) then
        assert FirstOversizedAt(files, i) by {
          forall j | 0 <= j < i ensures !Oversized(files[j]) {
            assert files[j] == files[..i][j];
          }
        }
        Fail(FileTooLarge(files[i].name))
      else
        var seen := files[..i + 1];
        assert seen[..i] == files[..i];
        assert NoneOversized(seen) by {
          forall j | 0 <= j < i + 1 ensures !Oversized(seen[j]) {
            if j < i {
              assert seen[j] == files[..i][j];
            }
          }
        }
        Scan(files, i + 1, total')
  }

  /**
   * The route's validation: an empty batch is refused first, then the
   * ordered scan decides between the first oversized file, the batch total
   * and acceptance.
   */
  function Validate(files: seq<UploadedFile>): (r: Outcome<MergeError>)
    ensures r == Fail(NoFiles) <==> files == []
    ensures r.Fail? && r.error.FileTooLarge? <==> exists k :: 0 <= k < |files| && Oversized(files[k])
    ensures r.Fail? && r.error.FileTooLarge? ==>
              exists k :: FirstOversizedAt(files, k) && r.error.name == files[k].name
    ensures r == Fail(TotalTooLarge) <==>
              files != [] && NoneOversized(files) && TotalSize(files) > MaxTotalSize
    ensures r == Pass <==> files != [] && NoneOversized(files) && TotalSize(files) <= MaxTotalSize
    ensures r != Fail(MergeFailed)
  {
    if |files| == 0 then Fail(NoFiles) else Scan(files, 0, 0)
  }

  /**
   * Whatever the other sizes and the total, a batch with an oversized file
   * is refused with the name of the first oversized file in upload order.
   */
  lemma RejectionNamesFirstOffender(files: seq<UploadedFile>, k: nat)
    requires FirstOversizedAt(files, k)
    ensures Validate(files) == Fail(FileTooLarge(files[k].name))
  {
  }

  /**
   * An example of Validate's contract at the boundary: the limits are
   * inclusive, so four files of exactly 5 MB, 20 MB in all, are accepted.
   */
  lemma ExactLimitsAccepted(f: UploadedFile)
    requires f.size == MaxFileSize
    ensures Validate([f, f, f, f]) == Pass
  {
    assert [f, f, f, f][..3] == [f, f, f];
    assert [f, f, f][..2] == [f, f];
    assert [f, f][..1] == [f];
    assert [f][..0] == [];
    assert TotalSize([f]) == MaxFileSize;
    assert TotalSize([f, f]) == 2 * MaxFileSize;
    assert TotalSize([f, f, f]) == 3 * MaxFileSize;
    assert TotalSize([f, f, f, f]) == 4 * MaxFileSize;
    assert NoneOversized([f, f, f, f]);
  }

  /**
   * An example of Validate's contract just past the boundary: one byte more
   * than 20 MB in all, with no file over 5 MB, is refused for the total.
   */
  lemma OneByteOverTotalRefused(f: UploadedFile, g: UploadedFile)
    requires f.size == MaxFileSize && g.size == 1
    ensures Validate([f, f, f, f, g]) == Fail(TotalTooLarge)
  {
    assert [f, f, f, f, g][..4] == [f, f, f, f];
    assert [f, f, f, f][..3] == [f, f, f];
    assert [f, f, f][..2] == [f, f];
    assert [f, f][..1] == [f];
    assert [f][..0] == [];
    assert TotalSize([f]) == MaxFileSize;
    assert TotalSize([f, f]) == 2 * MaxFileSize;
    assert TotalSize([f, f, f]) == 3 * MaxFileSize;
    assert TotalSize([f, f, f, f]) == 4 * MaxFileSize;
    assert TotalSize([f, f, f, f, g]) == 4 * MaxFileSize + 1;
    assert NoneOversized([f, f, f, f, g]);
  }
}
