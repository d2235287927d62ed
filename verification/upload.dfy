/** The request's data: the uploaded files and the errors the merge route reports. */
module Upload {

  /** One byte of an uploaded file. */
  newtype byte = x: int | 0 <= x < 256

  type Bytes = seq<byte>

  /**
   * One entry of the form's "files" field: its name, the media type the
   * browser declared for it, the size it reports in bytes and its content.
   */
  datatype UploadedFile = UploadedFile(name: string, mediaType: string, size: nat, bytes: Bytes)

  /**
   * The four ways a request fails. The first three are the client's fault and
   * are found before any document work; MergeFailed covers every exception
   * raised while the merged document is built or saved.
   */
  datatype MergeError =
    | NoFiles
    | FileTooLarge(name: string)
    | TotalTooLarge
    | MergeFailed

  /** The HTTP status the route answers an error with. */
  function Status(e: MergeError): nat
  {
    if e.MergeFailed? then 500 else 400
  }

  /** The text of the JSON body's `error` field. */
  function Message(e: MergeError): (m: string)
    ensures e.FileTooLarge? ==> |e.name| < |m| && m[..|e.name|] == e.name
  {
    match e
    case NoFiles => "No files received"
    case FileTooLarge(name) => name + " exceeds 5 MB limit"
    case TotalTooLarge => "Total file size exceeds 20 MB limit"
    case MergeFailed => "Failed to merge files"
  }

  /** The error body tells the client exactly which error happened, and which file caused it. */
  lemma MessageDeterminesError(e1: MergeError, e2: MergeError)
    requires Message(e1) == Message(e2)
    ensures e1 == e2
  {
    if e1.FileTooLarge? && e2.FileTooLarge? {
      assert |e1.name| == |e2.name|;
      assert e1.name == Message(e1)[..|e1.name|];
      assert e2.name == Message(e2)[..|e2.name|];
    } else {
      // Messages of different kinds differ in their last character or in the
      // tenth from last: the "5" of "5 MB" against the "0" of "20 MB".
      var m := Message(e1);
      assert |m| >= 17;
      assert m[|m| - 1] == Message(e2)[|m| - 1];
      assert m[|m| - 10] == Message(e2)[|m| - 10];
    }
  }
}
