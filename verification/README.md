# PDF & image merger: the merge route

This project models the server side of the PDF & Image Merger, the `POST`
handler of `app/api/merge/route.ts`. The handler receives an ordered batch of
uploaded files (PDFs and raster images) and produces one PDF that holds their
pages in upload order. The model covers its two sequential parts.

- **Validation** (`Validator`). An empty batch is refused with "No files
  received". The files are then scanned in order with a running total. The
  first file strictly larger than 5 MB (5·1024·1024 bytes) is refused by name.
  Only after the whole scan is the batch refused if the total is strictly larger
  than 20 MB (20·1024·1024 bytes). All three refusals are HTTP 400.
- **Assembly** (`Assembler`, `MergeRoute`). Each file is dispatched on its
  declared media type. `application/pdf` copies every page of the parsed
  source. `image/png` embeds a PNG. Every other type embeds a JPEG. An image
  gets one new page of its own pixel size, with the image drawn at (0, 0) at
  that size. The pages are appended in upload order, and the document is saved
  once at the end. Any failure of the PDF library becomes "Failed to merge
  files" (HTTP 500), and no partial document is returned.

The PDF library (pdf-lib) is abstract. `Engine.Engine` is a record of three
total functions, each of which may fail: `load` (parse a PDF into its pages),
`embed` (decode a PNG or JPEG and report its size) and `save` (serialize a page
list). Pages and images are opaque values. `MergeRoute.Post` also returns the
log of engine calls it made (`Engine.EngineCall`). This log is what states
"no engine work before validation passes", "nothing after the first failing
file" and "save exactly once, last".

Files: `wrappers.dfy` (Option/Result/Outcome), `upload.dfy` (files, errors,
status codes, messages), `validator.dfy`, `engine.dfy`, `assembler.dfy`,
`route.dfy`.

Three facts about `route.ts` shape the model:
- Every library failure becomes the one 500 answer "Failed to merge files",
  which names no file (route.ts:84-90).
- The limits are module constants (route.ts:4-5).
- The total is compared with its limit once, after the scan (route.ts:32). So a
  later oversized file is reported even when the running total has already
  passed 20 MB.

## Model

| member | source | states |
|---|---|---|
| MergeRoute.FailureStatus | app/api/merge/route.ts:12-90 | a failed request is answered with 500 exactly when validation passed (the failure came from the document work caught at the end) and with 400 exactly when validation refused the batch |
| Upload.Message | app/api/merge/route.ts:14-87 | the error bodies of lines 14, 26, 34 and 87; a too-large body starts with the offending file's name |
| Upload.MessageDeterminesError | app/api/merge/route.ts:14-87 | the four error bodies are pairwise distinct and a too-large message names one file only: the body identifies the error and the offending file |
| Validator.Scan | app/api/merge/route.ts:19-37 | the ordered scan with a running total passes iff no file exceeds 5 MB and the total is at most 20 MB, refuses for the total iff no file is oversized and the total exceeds 20 MB, and otherwise names the first oversized file at or after the current position |
| Validator.Validate | app/api/merge/route.ts:12-37 | an empty batch and only an empty batch gives NoFiles; FileTooLarge happens iff some file exceeds 5 MB and names the first such file; TotalTooLarge iff the batch is non-empty, no file is oversized and the sum exceeds 20 MB; acceptance iff none of these |
| Validator.RejectionNamesFirstOffender | app/api/merge/route.ts:21-30 | whatever the total, a batch whose first oversized file is at position k is refused with that file's name (the per-file error takes precedence) |
| Validator.ExactLimitsAccepted | app/api/merge/route.ts:4-5 | an example of `Validate`'s contract: the comparisons are strict, so files of exactly 5 MB adding up to exactly 20 MB are accepted |
| Validator.OneByteOverTotalRefused | app/api/merge/route.ts:32-37 | an example of `Validate`'s contract: one byte over 20 MB in total, with every file within 5 MB, is refused for the total |
| Assembler.RouteOf | app/api/merge/route.ts:45-58 | dispatch is total and three-way: exactly "application/pdf" takes the PDF path, exactly "image/png" the PNG decoder, every other type the JPEG decoder |
| Assembler.CopyAll | app/api/merge/route.ts:47-51 | copying a source keeps every page, one output page per source page, in the source's order |
| Assembler.Contribution | app/api/merge/route.ts:44-70 | one file's pages by its declared type: an "application/pdf" file fails iff parsing fails and otherwise contributes copies of all its source pages in order; any other file is decoded as PNG when its type is "image/png" and as JPEG otherwise, fails iff decoding fails, and otherwise contributes exactly one page that the decoded image fills at its pixel size from (0, 0) |
| Assembler.ContributionPageCount | app/api/merge/route.ts:44-70 | a successful file contributes exactly its page count: the source's pages for a PDF, one page for an image |
| Assembler.PdfPages | app/api/merge/route.ts:46-51 | the PDF path fails iff parsing fails; otherwise it yields one copied page per source page, in order |
| Assembler.ImagePages | app/api/merge/route.ts:55-69 | the image path fails iff decoding fails; otherwise it yields exactly one page whose size is the image's pixel size, with the image drawn at (0, 0) filling it |
| Assembler.AssembleFromMatchesExpand | app/api/merge/route.ts:41-71 | the loop with its accumulating document yields the pages accumulated so far followed by the concatenation of the remaining files' contributions, or fails if any remaining file fails |
| Assembler.AssembleComputesExpand | app/api/merge/route.ts:39-71 | from a fresh empty document the loop produces exactly the in-order concatenation of every file's contribution |
| Assembler.AssembleFromCallsOnSuccess | app/api/merge/route.ts:41-71 | a loop that completes has had every file succeed and made one load or embed call per file, in order |
| Assembler.AssembleFromCallsOnFailure | app/api/merge/route.ts:41-58 | a loop that fails stopped at the first failing file; its calls end with that file's call and no later file is touched |
| Assembler.AssembleCalls | app/api/merge/route.ts:39-71 | the document is created first, then one call per file in order; on failure the calls end at the first failing file |
| Assembler.ExpandFailsIff | app/api/merge/route.ts:41-71 | assembly fails iff the engine fails on at least one file |
| Assembler.ExpandAppend | app/api/merge/route.ts:41-71 | merging a batch split into two parts gives the first part's pages followed by the second's, and fails iff either part fails |
| Assembler.SwapBlocks | app/api/merge/route.ts:41-71 | swapping two blocks of files swaps their page ranges and leaves each block's pages and inner order unchanged |
| Assembler.ExpandPageCount | app/api/merge/route.ts:41-71 | the page list handed to save after a successful assembly has exactly the sum over files of (the source page count for a PDF, 1 for an image) pages |
| Assembler.ExpandPlacesEachItem | app/api/merge/route.ts:41-71 | in a successful merge, the file at position i occupies the page range that starts after all earlier files' pages, and that range is exactly its contribution |
| MergeRoute.Post | app/api/merge/route.ts:7-90 | a validation refusal is returned as is, with no engine call at all; success iff validation passes, every file succeeds and the save succeeds, the body then being the save of the full concatenated page list; the server error iff validation passes and a file or the save fails; the save is called iff every file succeeded, exactly once and last |
| MergeRoute.AnyFailingFileFailsRequest | app/api/merge/route.ts:41-90 | one file the engine cannot parse or decode fails the whole accepted request with the server error, and nothing is saved |
| MergeRoute.SinglePdfRoundTrip | app/api/merge/route.ts:39-73 | merging a single acceptable PDF saves exactly copies of all of its pages in their original order |

## Left out

- HTTP and form handling: `req.formData()`, `NextResponse`, the response headers and the `merged.pdf` file name. These are transport, not merge logic.
- The `!files` guard: `getAll` always returns an array, so only the empty case is modelled.
- Text entries in the `files` field: the `as File[]` cast at route.ts:10 is unchecked, and every entry is modelled as a file with a natural size. A string entry has no `size`; it makes the running total NaN (route.ts:22), which disables the total check at route.ts:32. The request then fails with 500 at `arrayBuffer` (route.ts:42), after the files before it were processed, where `Validate` would refuse an over-20 MB batch with 400.
- Exceptions thrown by `req.formData()` or `file.arrayBuffer()` also reach the 500 handler. They are not modelled because they are I/O failures outside the merge.
- `PDFDocument.create`, `copyPages`, `addPage` and `drawImage` are treated as infallible. Failures of the library are modelled at `load`, `embed` and `save`, which all lead to the same 500 answer.
- Document metadata: creating the document stamps it with producer, creator and creation/modification dates read from the clock. These and the clock are folded into the opaque `save`, so the saved bytes are only a function of the page list within one request.
- pdf-lib internals (PDF parsing, page copying, PNG/JPEG decoding, byte serialization) are opaque engine functions.
- `async`/`await`: the processing is strictly sequential, so it is modelled as a left-to-right fold.
- `console.error` logging of the caught exception.
- Validator.TotalSize: sizes are unbounded naturals. JavaScript adds them as doubles, which is exact below 2^53 bytes, far beyond any batch that passes the limits; this holds only when every entry is a file (see the text-entry line above).
- Assembler.ExpandPageCount: counts the page list handed to `save`, not the pages of the saved PDF. The save is opaque here; whether the library adds a default page to a document with no pages (a batch of zero-page PDFs) is not modelled.
- `app/page.tsx`, the client (dropzone, drag-and-drop reordering, download), is not part of this model. Its "pdf"/"image" label is display only, and the server dispatches on the media type itself.
