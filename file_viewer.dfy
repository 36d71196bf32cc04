/** The file viewer modal (src/components/FileViewer.jsx): the null-render
    guard and `decodedContent`. The dashboard hands the viewer the file it
    resolved in `handleFileClick`, whose content is already decoded text;
    `decodedContent` runs `atob` over it once more. `DecodedContent` and
    `Render` model the component as written; `ShownContent` and
    `RenderResolved` are the viewer that shows the resolved text. */
module FileViewer {
  import opened Wrappers
  import opened Base64
  import opened GitHubUrl
  import opened FileContent
  import opened Dashboard

  const NoContent: string := "No content available."

  const CorruptContent: string := "Error: Could not decode file content. It might be binary or corrupted."

  /** `decodedContent()` as written: the content taken as base64 and turned
      into a binary string, with no UTF-8 step. */
  function DecodedContent(content: Option<string>): (text: string)
    ensures content.None? || content == Some("") ==> text == NoContent
    ensures content.Some? && content.value != "" && Decode(content.value).None? ==> text == CorruptContent
    ensures content.Some? && content.value != "" && Decode(content.value).Some? ==>
      text == BinaryString(Decode(content.value).value)
  {
    if content.None? || content.value == "" then NoContent
    else
      match Atob(content.value)
      case None => CorruptContent
      case Some(bin) => bin
  }

  /** The viewer with the decoding left to the dashboard: the resolved text
      itself, or the message for a missing or empty one. */
  function ShownContent(content: Option<string>): (text: string)
    ensures content.None? || content == Some("") ==> text == NoContent
    ensures content.Some? && content.value != "" ==> text == content.value
  {
    if content.None? || content.value == "" then NoContent else content.value
  }

  /** What the component renders. */
  datatype View = Nothing | LoadingModal | ContentModal(path: string, text: string)

  /** `FileViewer({file, isLoading})`: nothing without a file unless loading,
      the loading modal while loading, else the file's path and its content
      passed through `decodedContent`. */
  function Render(file: Option<ViewedFile>, isLoading: bool): (v: View)
    ensures v == Nothing <==> file.None? && !isLoading
    ensures v == LoadingModal <==> isLoading
    ensures v.ContentModal? ==> file.Some? && v.path == file.value.path
    ensures v.ContentModal? ==> v.text == DecodedContent(Some(file.value.content))
  {
    if file.None? && !isLoading then Nothing
    else if isLoading then LoadingModal
    else ContentModal(file.value.path, DecodedContent(Some(file.value.content)))
  }

  /** The viewer as intended: the same guards as `Render`, showing the text
      the dashboard resolved instead of decoding it again. */
  function RenderResolved(file: Option<ViewedFile>, isLoading: bool): (v: View)
    ensures v.ContentModal? <==> Render(file, isLoading).ContentModal?
    ensures !v.ContentModal? ==> v == Render(file, isLoading)
    ensures v.ContentModal? ==>
      file.Some? && v.path == file.value.path && v.text == ShownContent(Some(file.value.content))
  {
    match Render(file, isLoading)
    case ContentModal(path, _) => ContentModal(path, ShownContent(Some(file.value.content)))
    case other => other
  }

  /** Decoding the dashboard's text again rejects any text with a character
      that is neither base64 nor ASCII whitespace, such as a period. */
  lemma DoubleDecodeRejectsText(text: string, i: nat)
    requires i < |text|
    requires !IsAsciiWhitespace(text[i]) && text[i] != '=' && !IsAlphabet(text[i])
    ensures DecodedContent(Some(text)) == CorruptContent
  {
    ForeignCharacterRejected(text, i);
  }

  /** A concrete instance: a base64-stored file whose text reads `Hi.` is
      resolved to that text, and the viewer as written then shows the decode
      error instead of it. */
  lemma DoubleDecodeExample(path: string, repoUrl: Option<string>, fetch: (RepoRef, string) -> Option<ContentData>,
                            utf8: seq<Byte> -> string, b: seq<Byte>)
    requires FileContent.Fetched(path, repoUrl, fetch) == Some(ContentData(Some("base64"), Some(Encode(b)), "file"))
    requires b != [] && utf8(b) == "Hi."
    ensures ContentForViewer(path, repoUrl, fetch, utf8) == "Hi."
    ensures DecodedContent(Some(ContentForViewer(path, repoUrl, fetch, utf8))) == CorruptContent
    ensures Render(Some(ViewedFile(path, ContentForViewer(path, repoUrl, fetch, utf8))), false)
      == ContentModal(path, CorruptContent)
  {
    DecodeEncoded(b, utf8);
    EncodePrepared(b);
    assert |Encode(b)| > 0;
    DoubleDecodeRejectsText("Hi.", 2);
  }

  /** Once loaded, the corrected viewer shows what `handleFileClick`
      resolved; for a file GitHub encoded, that is the UTF-8 reading of its
      bytes. */
  lemma ViewerShowsFile(path: string, repoUrl: Option<string>, fetch: (RepoRef, string) -> Option<ContentData>,
                        utf8: seq<Byte> -> string, b: seq<Byte>)
    requires FileContent.Fetched(path, repoUrl, fetch) == Some(ContentData(Some("base64"), Some(Encode(b)), "file"))
    requires b != [] && utf8(b) != ""
    ensures RenderResolved(Some(ViewedFile(path, ContentForViewer(path, repoUrl, fetch, utf8))), false)
      == ContentModal(path, utf8(b))
  {
    DecodeEncoded(b, utf8);
    EncodePrepared(b);
    assert |Encode(b)| > 0;
  }
}
