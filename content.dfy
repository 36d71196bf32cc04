/** File content as the dashboard obtains it (src/pages/Dashboard.jsx):
    `decodeBase64`, and the two resolvers that fetch a file through the
    contents API and turn the reply into text or a placeholder, one for the
    AI assistant and one for the file viewer. The contents request is a
    function parameter `fetch` (`None` for a rejected request), and
    `TextDecoder` is the parameter `utf8`. */
module FileContent {
  import opened Wrappers
  import opened Base64
  import opened GitHubUrl

  const DecodeFailure: string :=
    "[Error: Could not decode file content. It may be binary or use an unsupported encoding.]"

  /** Storing a number into a `Uint8Array` keeps it modulo 256. */
  function ToUint8(v: int): (b: Byte)
    ensures 0 <= v < 256 ==> b == v
  {
    v % 256
  }

  /** The `Uint8Array` filled with `charCodeAt(i)` of a binary string. */
  function CharCodes(bin: string): (bytes: seq<Byte>)
    ensures |bytes| == |bin|
  {
    seq(|bin|, i requires 0 <= i < |bin| => ToUint8(bin[i] as int))
  }

  /** Reading back the char codes of a binary string gives its bytes. */
  lemma CharCodesOfBinary(bytes: seq<Byte>)
    ensures CharCodes(BinaryString(bytes)) == bytes
  {
    var bin := BinaryString(bytes);
    forall i | 0 <= i < |bytes|
      ensures CharCodes(bin)[i] == bytes[i]
    {
      assert bin[i] as int == bytes[i];
    }
  }

  /** What `decodeBase64` returns: the fixed message when `atob` throws, and
      otherwise the UTF-8 reading of exactly the bytes the base64 text encodes. */
  function DecodedText(encoded: string, utf8: seq<Byte> -> string): (r: string)
    ensures Decode(encoded).None? ==> r == DecodeFailure
    ensures Decode(encoded).Some? ==> r == utf8(Decode(encoded).value)
  {
    match Atob(encoded)
    case None => DecodeFailure
    case Some(bin) =>
      CharCodesOfBinary(Decode(encoded).value);
      utf8(CharCodes(bin))
  }

  /** `decodeBase64(encodedString)`: `atob`, then the byte array filled char
      code by char code, then `TextDecoder`. */
  method DecodeBase64(encoded: string, utf8: seq<Byte> -> string) returns (text: string)
    ensures text == DecodedText(encoded, utf8)
  {
    var decoded := Atob(encoded);
    if decoded.None? {
      return DecodeFailure;
    }
    var bin := decoded.value;
    var bytes := new Byte[|bin|];
    for i := 0 to |bin|
      invariant forall j :: 0 <= j < i ==> bytes[j] == ToUint8(bin[j] as int)
    {
      bytes[i] := ToUint8(bin[i] as int);
    }
    assert bytes[..] == CharCodes(bin);
    text := utf8(bytes[..]);
  }

  /** Content GitHub encoded is read back as its bytes, line breaks and all. */
  lemma DecodeEncoded(b: seq<Byte>, utf8: seq<Byte> -> string)
    ensures DecodedText(Encode(b), utf8) == utf8(b)
  {
    EncodeDecode(b);
  }

  /** The fields of a contents reply the resolvers read: `encoding`,
      `content` and `type`. */
  datatype ContentData = ContentData(encoding: Option<string>, content: Option<string>, kind: string)

  /** `contentData.encoding === 'base64' && contentData.content`. */
  predicate Readable(cd: ContentData)
  {
    cd.encoding == Some("base64") && cd.content.Some? && cd.content.value != ""
  }

  const InvalidPath: string := "[Error: Invalid file path provided.]"

  function FetchFailed(path: string): string
  {
    "[Error: Failed to fetch content for " + path + ". The file might be inaccessible.]"
  }

  function Unreadable(path: string, kind: string): string
  {
    "[Error: Content for " + path + " is not available in a readable format (type: " + kind + ").]"
  }

  function CannotDisplay(kind: string): string
  {
    "// Cannot display content of type: " + kind
  }

  function CouldNotLoad(path: string): string
  {
    "// Error: Could not load content for " + path + "."
  }

  /** The text of a contents request for `path` in the repository the input
      box names, or None when it cannot be made or is rejected: an input that
      does not parse makes the destructuring throw inside the `try`. */
  function Fetched(path: string, repoUrl: Option<string>, fetch: (RepoRef, string) -> Option<ContentData>): (r: Option<ContentData>)
    ensures ParseGitHubUrl(repoUrl).None? ==> r.None?
    ensures ParseGitHubUrl(repoUrl).Some? ==> r == fetch(ParseGitHubUrl(repoUrl).value, path)
  {
    match ParseGitHubUrl(repoUrl)
    case None => None
    case Some(ref) => fetch(ref, path)
  }

  /** `handleFileContentForAI(filePath)`. */
  function ContentForAI(path: string, repoUrl: Option<string>, fetch: (RepoRef, string) -> Option<ContentData>,
                        utf8: seq<Byte> -> string): string
  {
    if path == "" then InvalidPath
    else
      match Fetched(path, repoUrl, fetch)
      case None => FetchFailed(path)
      case Some(cd) => if Readable(cd) then DecodedText(cd.content.value, utf8) else Unreadable(path, cd.kind)
  }

  /** The content `handleFileClick` finally shows for `path`. */
  function ContentForViewer(path: string, repoUrl: Option<string>, fetch: (RepoRef, string) -> Option<ContentData>,
                            utf8: seq<Byte> -> string): string
  {
    match Fetched(path, repoUrl, fetch)
    case None => CouldNotLoad(path)
    case Some(cd) => if Readable(cd) then DecodedText(cd.content.value, utf8) else CannotDisplay(cd.kind)
  }

  /** Decoding happens only for base64 content that is not empty: an empty
      file gets the type placeholder in both resolvers, whatever its encoding. */
  lemma EmptyFileNotDecoded(path: string, repoUrl: Option<string>, fetch: (RepoRef, string) -> Option<ContentData>,
                            utf8: seq<Byte> -> string)
    requires path != ""
    requires Fetched(path, repoUrl, fetch).Some? && Fetched(path, repoUrl, fetch).value.content in {None, Some("")}
    ensures ContentForAI(path, repoUrl, fetch, utf8) == Unreadable(path, Fetched(path, repoUrl, fetch).value.kind)
    ensures ContentForViewer(path, repoUrl, fetch, utf8) == CannotDisplay(Fetched(path, repoUrl, fetch).value.kind)
  {
  }

  /** The AI resolver refuses the empty path before any request, and an input
      box that names no repository is reported like a failed request. */
  lemma AIResolverGuards(path: string, repoUrl: Option<string>, fetch: (RepoRef, string) -> Option<ContentData>,
                         utf8: seq<Byte> -> string)
    ensures path == "" ==> ContentForAI(path, repoUrl, fetch, utf8) == InvalidPath
    ensures path != "" && ParseGitHubUrl(repoUrl).None? ==> ContentForAI(path, repoUrl, fetch, utf8) == FetchFailed(path)
    ensures ParseGitHubUrl(repoUrl).None? ==> ContentForViewer(path, repoUrl, fetch, utf8) == CouldNotLoad(path)
  {
  }

  /** Both resolvers decode readable content the same way, with no size
      limit: for a file GitHub encoded, each yields the UTF-8 reading of its
      bytes. */
  lemma ResolversAgree(path: string, repoUrl: Option<string>, fetch: (RepoRef, string) -> Option<ContentData>,
                       utf8: seq<Byte> -> string, b: seq<Byte>)
    requires path != "" && Fetched(path, repoUrl, fetch).Some?
    requires Fetched(path, repoUrl, fetch).value.encoding == Some("base64")
    requires Fetched(path, repoUrl, fetch).value.content == Some(Encode(b)) && b != []
    ensures ContentForAI(path, repoUrl, fetch, utf8) == ContentForViewer(path, repoUrl, fetch, utf8) == utf8(b)
  {
    EncodeDecode(b);
    assert |Encode(b)| > 0 by {
      EncodePrepared(b);
    }
  }
}
