/** The records shared by the analysis service, the dashboard, the upload form
    and the application shell. */
module Types {
  import opened Wrappers

  /** One completed analysis. Only `fileName` and `humanizedText` are optional. */
  datatype AnalysisResult = AnalysisResult(
    id: string,
    fileName: Option<string>,
    originalText: string,
    aiProbability: int,
    humanProbability: int,
    timestamp: int,          // milliseconds since the epoch
    suggestions: seq<string>,
    humanizedText: Option<string>
  )

  /** `new Date(millis).toISOString()`: the string is fixed by the instant it
      renders; its formatting is not modelled. */
  datatype IsoDate = IsoDate(millis: int)

  /** The lossy summary of a result kept in the persisted history. It holds no
      original text, suggestions or humanized text. */
  datatype HistoryItem = HistoryItem(
    id: string,
    fileName: string,
    date: IsoDate,
    aiScore: int,
    preview: string
  )

  /** The two screens of the application. */
  datatype AppView = Upload | Dashboard

  const PdfMime: string := "application/pdf"
  const DocxMime: string := "application/vnd.openxmlformats-officedocument.wordprocessingml.document"
  const TextMime: string := "text/plain"

  /** The accepted document kinds, one per MIME string. */
  datatype FileType = Pdf | Docx | PlainText {
    function Mime(): string {
      match this
      case Pdf => PdfMime
      case Docx => DocxMime
      case PlainText => TextMime
    }
  }

  /** The file type a MIME string names, if any. */
  function FileTypeOf(mime: string): (t: Option<FileType>)
    ensures t.Some? ==> t.value.Mime() == mime
    ensures t.None? ==> forall k: FileType :: k.Mime() != mime
  {
    if mime == PdfMime then Some(Pdf)
    else if mime == DocxMime then Some(Docx)
    else if mime == TextMime then Some(PlainText)
    else None
  }

  /** Distinct file types have distinct MIME strings, so a MIME string names at
      most one type and reading it back gives that type. */
  lemma FileTypeRoundTrip(t: FileType)
    ensures FileTypeOf(t.Mime()) == Some(t)
  {
    assert |PdfMime| != |DocxMime| && PdfMime[0] != TextMime[0];
    assert |DocxMime| != |TextMime|;
  }

  /** JavaScript truthiness of an optional string: present and not empty. */
  predicate Present(s: Option<string>) {
    s.Some? && s.value != ""
  }
}
