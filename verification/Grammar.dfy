/**
 The texts of well-formed HTTP/1 messages, generated from a syntax tree. Each
 printing function takes the text that follows as its last argument. `Meaning`
 functions say what a message stands for without reference to the parser.
 */
module Grammar {
  import opened Text
  import opened Message

  // ------------------------------------------------------------- header section

  /** A continuation line (obs-fold of section 3.2.4 of RFC 7230). */
  datatype Fold = Fold(lead: string, text: string, trail: string)

  datatype Field = Field(name: string, lead: string, value: string, trail: string, folds: seq<Fold>)

  predicate OneLine(s: string) {
    Trimmed(s) && '\n' !in s
  }

  predicate FieldName(name: string) {
    Token(name) && ':' !in name
  }

  predicate ValidFold(f: Fold) {
    f.lead != "" && All(IsBlank, f.lead) && OneLine(f.text) && All(IsBlank, f.trail)
  }

  /** HTTP/2 header lists may also hold pseudo-header names, which start with a colon. */
  predicate ValidName(name: string, isH2: bool) {
    FieldName(name) || (isH2 && name != "" && name[0] == ':' && FieldName(name[1..]))
  }

  predicate ValidField(f: Field, isH2: bool) {
    && ValidName(f.name, isH2)
    && All(IsBlank, f.lead) && OneLine(f.value) && All(IsBlank, f.trail)
    && forall i | 0 <= i < |f.folds| :: ValidFold(f.folds[i])
  }

  predicate ValidFields(fs: seq<Field>, isH2: bool) {
    forall i | 0 <= i < |fs| :: ValidField(fs[i], isH2)
  }

  function FieldLine(f: Field): string {
    f.name + ":" + (f.lead + f.value + f.trail)
  }

  function FoldLine(f: Fold): string {
    f.lead + f.text + f.trail
  }

  function FoldsWire(folds: seq<Fold>, t: string): string {
    if folds == [] then t else FoldLine(folds[0]) + "\r\n" + FoldsWire(folds[1..], t)
  }

  function FieldWire(f: Field, t: string): string {
    FieldLine(f) + "\r\n" + FoldsWire(f.folds, t)
  }

  /** A header or trailer section: the fields and the empty line that ends it. */
  function SectionWire(fs: seq<Field>, t: string): string {
    if fs == [] then "\r\n" + t else FieldWire(fs[0], SectionWire(fs[1..], t))
  }

  function FoldedValue(value: string, folds: seq<Fold>): string
    decreases |folds|
  {
    if folds == [] then value else FoldedValue(value + " " + folds[0].text, folds[1..])
  }

  function HeadersOf(fs: seq<Field>): seq<Header> {
    if fs == [] then []
    else [Header(fs[0].name, FoldedValue(fs[0].value, fs[0].folds))] + HeadersOf(fs[1..])
  }

  predicate Unfolded(fs: seq<Field>) {
    forall i | 0 <= i < |fs| :: fs[i].folds == []
  }

  // --------------------------------------------------------------------- bodies

  /** A chunk (section 4.1 of RFC 7230): size digits, extensions with their semicolon, payload. */
  datatype Chunk = Chunk(size: string, ext: string, data: string)

  predicate ValidSize(size: string, ext: string, n: nat) {
    && size != "" && AllDigits(size, 16) && NumberOf(size, 16) == n
    && '\n' !in ext && (ext == "" || ext[0] == ';')
  }

  /** A payload the line-wise reader can tell from its line end. */
  predicate ReadablePayload(data: string) {
    '\n' !in data && data != "" && data[|data| - 1] != '\r'
  }

  predicate ValidChunk(c: Chunk) {
    ValidSize(c.size, c.ext, |c.data|) && ReadablePayload(c.data)
  }

  predicate ValidChunks(cs: seq<Chunk>) {
    forall i | 0 <= i < |cs| :: ValidChunk(cs[i])
  }

  function SizeLine(size: string, ext: string): string {
    size + ext + "\r\n"
  }

  function ChunkWire(c: Chunk, t: string): string {
    SizeLine(c.size, c.ext) + (c.data + "\r\n" + t)
  }

  function ChunksWire(cs: seq<Chunk>, t: string): string {
    if cs == [] then t else ChunkWire(cs[0], ChunksWire(cs[1..], t))
  }

  /** The payload the chunks carry. */
  function Payload(cs: seq<Chunk>): string {
    if cs == [] then "" else cs[0].data + Payload(cs[1..])
  }

  datatype WireBody =
    | Empty
    | Plain(text: string)
    | Chunks(chunks: seq<Chunk>, last: Chunk, trailer: seq<Field>)

  predicate ValidLast(last: Chunk) {
    ValidSize(last.size, last.ext, 0)
  }

  function BodyWire(b: WireBody, t: string): string {
    match b
    case Empty => t
    case Plain(text) => text + t
    case Chunks(chunks, last, trailer) => ChunksWire(chunks, SizeLine(last.size, last.ext) + SectionWire(trailer, t))
  }

  /** A chunked body is kept as it was sent, but for the trailer section. */
  function BodyMeaning(b: WireBody): Body {
    match b
    case Empty => Body("", [])
    case Plain(text) => Body(text, [])
    case Chunks(chunks, last, trailer) =>
      var end := if trailer == [] then "\r\n" else "";
      Body(ChunksWire(chunks, SizeLine(last.size, last.ext) + end), HeadersOf(trailer))
  }

  /** The body has the form its framing announces. */
  predicate ValidBody(framing: Framing, hs: seq<Header>, b: WireBody) {
    match b
    case Empty => framing == NoBody
    case Plain(text) =>
      framing == Sized && Has(hs, "Content-Length") && ParseInt(Get(hs, "Content-Length").value, 10) == Some(|text|)
    case Chunks(chunks, last, trailer) =>
      framing == Chunked && ValidChunks(chunks) && ValidLast(last) && ValidFields(trailer, false)
  }

  // ------------------------------------------------------------------- messages

  function ContentWire(fs: seq<Field>, b: WireBody, t: string): string {
    SectionWire(fs, BodyWire(b, t))
  }

  predicate ValidContent(framingOf: seq<Header> -> Framing, fs: seq<Field>, b: WireBody) {
    ValidFields(fs, false) && ValidBody(framingOf(HeadersOf(fs)), HeadersOf(fs), b)
  }

  function ContentMeaning(fs: seq<Field>, b: WireBody): Content {
    Content(HeadersOf(fs), BodyMeaning(b))
  }

  /** With `short` the request line ends after the uri. */
  datatype WireRequest = WireRequest(
    emptyLines: nat, line: RequestLine, short: bool, fields: seq<Field>, body: WireBody)

  function EmptyLines(n: nat, t: string): string {
    if n == 0 then t else "\r\n" + EmptyLines(n - 1, t)
  }

  function RequestLineText(l: RequestLine, short: bool): string {
    l.method_ + " " + l.uri + if short then "" else " " + l.version
  }

  predicate ValidRequestLine(l: RequestLine, short: bool) {
    && l.method_ in METHODS && Token(l.method_) && Token(l.uri)
    && if short then l.version == DEFAULT_VERSION else Token(l.version)
  }

  predicate ValidRequest(w: WireRequest) {
    ValidRequestLine(w.line, w.short) && ValidContent(RequestFraming, w.fields, w.body)
  }

  function RequestWire(w: WireRequest, t: string): string {
    EmptyLines(w.emptyLines, RequestLineText(w.line, w.short) + "\r\n" + ContentWire(w.fields, w.body, t))
  }

  function RequestMeaning(w: WireRequest): Request {
    Request(w.line, ContentMeaning(w.fields, w.body))
  }

  datatype WireResponse = WireResponse(
    version: string, status: string, reason: seq<string>, fields: seq<Field>, body: WireBody)

  function ReasonText(words: seq<string>): string {
    if words == [] then "" else " " + words[0] + ReasonText(words[1..])
  }

  function StatusLineText(w: WireResponse): string {
    w.version + (" " + w.status + ReasonText(w.reason))
  }

  predicate ValidResponse(method_: string, w: WireResponse) {
    && Token(w.version) && Token(w.status) && StatusCode(w.status).Some?
    && (forall i | 0 <= i < |w.reason| :: Token(w.reason[i]))
    && ValidContent(FramingUnder(method_, StatusCode(w.status).value), w.fields, w.body)
  }

  function ResponseWire(w: WireResponse, t: string): string {
    StatusLineText(w) + "\r\n" + ContentWire(w.fields, w.body, t)
  }

  function ResponseMeaning(w: WireResponse): Response {
    Response(
      StatusLine(w.version, w.status, if w.reason == [] then None else Some(Join(" ", w.reason))),
      ContentMeaning(w.fields, w.body))
  }

  // -------------------------------------------------- the text that follows is a suffix

  lemma {:induction false} SectionAppend(fs: seq<Field>, t: string, x: string)
    ensures SectionWire(fs, t + x) == SectionWire(fs, t) + x
  {
    if fs == [] {
    } else {
      SectionAppend(fs[1..], t, x);
      FoldsAppend(fs[0].folds, SectionWire(fs[1..], t), x);
    }
  }

  lemma {:induction false} FoldsAppend(folds: seq<Fold>, t: string, x: string)
    ensures FoldsWire(folds, t + x) == FoldsWire(folds, t) + x
  {
    if folds == [] {
    } else {
      FoldsAppend(folds[1..], t, x);
    }
  }

  lemma {:induction false} ChunksAppend(cs: seq<Chunk>, t: string, x: string)
    ensures ChunksWire(cs, t + x) == ChunksWire(cs, t) + x
  {
    if cs == [] {
    } else {
      ChunksAppend(cs[1..], t, x);
    }
  }

  lemma ContentAppend(fs: seq<Field>, b: WireBody, t: string, x: string)
    ensures BodyWire(b, t + x) == BodyWire(b, t) + x
    ensures ContentWire(fs, b, t + x) == ContentWire(fs, b, t) + x
  {
    match b {
      case Empty =>
      case Plain(text) =>
        assert text + (t + x) == text + t + x;
      case Chunks(chunks, last, trailer) =>
        SectionAppend(trailer, t, x);
        var line := SizeLine(last.size, last.ext);
        assert line + (SectionWire(trailer, t) + x) == line + SectionWire(trailer, t) + x;
        ChunksAppend(chunks, line + SectionWire(trailer, t), x);
    }
    SectionAppend(fs, BodyWire(b, t), x);
  }

  lemma {:induction false} EmptyLinesAppend(n: nat, t: string, x: string)
    ensures EmptyLines(n, t + x) == EmptyLines(n, t) + x
  {
    if n == 0 {
    } else {
      EmptyLinesAppend(n - 1, t, x);
    }
  }

  lemma RequestAppend(w: WireRequest, x: string)
    ensures RequestWire(w, x) == RequestWire(w, "") + x
  {
    assert "" + x == x;
    ContentAppend(w.fields, w.body, "", x);
    var head := RequestLineText(w.line, w.short) + "\r\n";
    var content := ContentWire(w.fields, w.body, "");
    assert head + (content + x) == head + content + x;
    EmptyLinesAppend(w.emptyLines, head + content, x);
  }

  lemma ResponseAppend(w: WireResponse, x: string)
    ensures ResponseWire(w, x) == ResponseWire(w, "") + x
  {
    assert "" + x == x;
    ContentAppend(w.fields, w.body, "", x);
  }
}
