/**
 * `handleFile` of src/features/extractor/components/file-upload.tsx: the
 * classification of a chosen file by MIME type and size, and what the
 * component does with each kind. The component's `error` and `progress`
 * state become fields of a class; the FileReader and the PDF renderer
 * become outcomes given as parameters; the callback that fires is the
 * method's result.
 */
module FileUpload {
  import opened Wrappers

  const DOCX_MIME_TYPE: string := "application/vnd.openxmlformats-officedocument.wordprocessingml.document"
  const PDF_MIME_TYPE: string := "application/pdf"

  /** The document types accepted besides images. */
  const ACCEPTED_TYPES: seq<string> := [PDF_MIME_TYPE, DOCX_MIME_TYPE]

  const ACCEPTED_IMAGE_TYPES: seq<string> := ["image/png", "image/jpeg", "image/jpg", "image/webp"]

  /** 100 MB. */
  const MAX_FILE_SIZE: int := 100 * 1024 * 1024

  const TYPE_ERROR: string := "仅支持 PDF、Word (.docx) 和图片 (PNG/JPG/WEBP) 格式"
  const SIZE_ERROR: string := "文件大小不能超过 100MB"
  const READ_ERROR: string := "图片读取失败"
  const PDF_ERROR_PREFIX: string := "PDF 解析失败: "
  const UNKNOWN_ERROR: string := "未知错误"

  /** Where a file is sent, decided before anything is read. */
  datatype Route = Refused(error: string) | AsDocx | AsImage | AsPdf

  /** The guard chain at the top of `handleFile`: type, then size, then
      DOCX, then image, and every other accepted type is a PDF. */
  function Classify(mime: string, size: int): (r: Route)
    ensures r == Refused(TYPE_ERROR) <==> mime !in ACCEPTED_TYPES && mime !in ACCEPTED_IMAGE_TYPES
    ensures r == Refused(SIZE_ERROR) <==>
      (mime in ACCEPTED_TYPES || mime in ACCEPTED_IMAGE_TYPES) && size > MAX_FILE_SIZE
    ensures r.Refused? ==> r.error == TYPE_ERROR || r.error == SIZE_ERROR
    ensures r == AsDocx <==> mime == DOCX_MIME_TYPE && size <= MAX_FILE_SIZE
    ensures r == AsImage <==> mime in ACCEPTED_IMAGE_TYPES && size <= MAX_FILE_SIZE
    ensures r == AsPdf <==> mime == PDF_MIME_TYPE && size <= MAX_FILE_SIZE
  {
    if mime !in ACCEPTED_TYPES && mime !in ACCEPTED_IMAGE_TYPES then Refused(TYPE_ERROR)
    else if size > MAX_FILE_SIZE then Refused(SIZE_ERROR)
    else if mime == DOCX_MIME_TYPE then AsDocx
    else if mime in ACCEPTED_IMAGE_TYPES then AsImage
    else AsPdf
  }

  /** A file of exactly 100 MB is accepted; one byte more is refused, and
      an unsupported type is reported as such whatever its size. */
  lemma SizeBoundary(mime: string)
    requires mime in ACCEPTED_TYPES || mime in ACCEPTED_IMAGE_TYPES
    ensures !Classify(mime, MAX_FILE_SIZE).Refused?
    ensures Classify(mime, MAX_FILE_SIZE + 1) == Refused(SIZE_ERROR)
    ensures Classify("text/plain", MAX_FILE_SIZE + 1) == Refused(TYPE_ERROR)
  {
    assert "text/plain" != PDF_MIME_TYPE && "text/plain" != DOCX_MIME_TYPE;
    assert forall t :: t in ACCEPTED_IMAGE_TYPES ==> t[0] == 'i';
  }

  /** What the FileReader delivered for an image. */
  datatype ImageRead =
      /** `onload`; `result` is `None` when it was not a string. */
    | Loaded(result: Option<string>)
      /** `onerror`. */
    | ReadFailed

  /** How rendering a PDF ended. */
  datatype PdfRender =
    | Rendered(pages: seq<string>)
      /** An `AbortError` `DOMException`. */
    | RenderAborted
      /** Any other exception; `message` is its message when it is an
          `Error`. */
    | RenderFailed(message: Option<string>)

  /** The callback `handleFile` ends up calling, if any. */
  datatype Dispatch =
    | NoCallback
    | DocxUploaded
    | ImageUploaded(dataUrl: string)
    | PagesRendered(pages: seq<string>)

  class Uploader {
    var error: Option<string>
    var progress: Option<(nat, nat)>

    constructor()
      ensures error == None && progress == None
    {
      error := None;
      progress := None;
    }

    /** `handleFile(file)`, run to completion. */
    method HandleFile(mime: string, size: int, read: ImageRead, render: PdfRender)
      returns (d: Dispatch)
      modifies this
      ensures var route := Classify(mime, size);
        && (route.Refused? ==> d == NoCallback && error == Some(route.error) && progress == old(progress))
        && (route == AsDocx ==> d == DocxUploaded && error == None && progress == old(progress))
        && (route == AsImage ==> progress == None && match read
              case Loaded(result) =>
                error == None && d == (if result.Some? then ImageUploaded(result.value) else NoCallback)
              case ReadFailed => error == Some(READ_ERROR) && d == NoCallback)
        && (route == AsPdf ==> progress == None && match render
              case Rendered(pages) => error == None && d == PagesRendered(pages)
              case RenderAborted => error == None && d == NoCallback
              case RenderFailed(message) =>
                error == Some(PDF_ERROR_PREFIX + message.GetOr(UNKNOWN_ERROR)) && d == NoCallback)
    {
      error := None;
      var route := Classify(mime, size);
      if route.Refused? {
        error := Some(route.error);
        return NoCallback;
      }
      if route == AsDocx {
        return DocxUploaded;
      }
      if route == AsImage {
        progress := Some((0, 1));
        match read {
          case Loaded(result) =>
            progress := None;
            d := if result.Some? then ImageUploaded(result.value) else NoCallback;
          case ReadFailed =>
            progress := None;
            error := Some(READ_ERROR);
            d := NoCallback;
        }
        return;
      }
      progress := Some((0, 0));
      match render {
        case Rendered(pages) =>
          d := PagesRendered(pages);
        case RenderAborted =>
          d := NoCallback;
        case RenderFailed(message) =>
          error := Some(PDF_ERROR_PREFIX + message.GetOr(UNKNOWN_ERROR));
          d := NoCallback;
      }
      progress := None;
    }
  }

  /** Each callback is reached only from its own kind of file: a DOCX only
      from the DOCX type, an image only from an image type, pages only
      from a PDF, and nothing from a refused file. */
  lemma DispatchMatchesType(mime: string, size: int, read: ImageRead, render: PdfRender)
    ensures Classify(mime, size) == AsDocx ==> mime !in ACCEPTED_IMAGE_TYPES && mime != PDF_MIME_TYPE
    ensures Classify(mime, size) == AsImage ==> mime !in ACCEPTED_TYPES
    ensures Classify(mime, size) == AsPdf ==> mime != DOCX_MIME_TYPE && mime !in ACCEPTED_IMAGE_TYPES
  {
    assert forall t :: t in ACCEPTED_IMAGE_TYPES ==> t[0] == 'i';
  }
}
