/**
 * The PDF library as the merge route sees it: an abstract engine whose
 * parsing, image decoding and saving may each fail. Pages and images are
 * opaque values; only their identity, order and geometry matter here.
 */
module Engine {
  import opened Wrappers
  import opened Upload

  /** The two raster formats the library can embed. */
  datatype ImageFormat = Png | Jpeg

  /** A page of a parsed source PDF, carried over verbatim when copied. */
  datatype SourcePage = SourcePage(width: nat, height: nat, content: Bytes)

  /** Pixel width and height of a decoded image. */
  datatype Dimensions = Dimensions(width: nat, height: nat)

  /** An image embedded into the output document. */
  datatype EmbeddedImage = EmbeddedImage(format: ImageFormat, data: Bytes, size: Dimensions)

  /** Where an image is drawn on a page and at what size. */
  datatype Placement = Placement(x: int, y: int, width: nat, height: nat)

  /** A page of the merged document. */
  datatype OutPage =
    | CopiedPage(source: SourcePage)
    | ImagePage(width: nat, height: nat, image: EmbeddedImage, placement: Placement)

  /**
   * The library's fallible operations: `load` parses a whole PDF into its
   * pages in document order, `embed` decodes an image and reports its size,
   * `save` serializes a finished page list.
   */
  datatype Engine = Engine(
    load: Bytes -> Option<seq<SourcePage>>,
    embed: (ImageFormat, Bytes) -> Option<Dimensions>,
    save: seq<OutPage> -> Option<Bytes>)

  /** The engine calls a request makes, in the order it makes them. */
  datatype EngineCall =
    | CreateDocument
    | LoadPdf(index: nat)
    | EmbedImage(index: nat, format: ImageFormat)
    | SaveDocument
}
