/**
 Printing a message and parsing the text back.
 */
module PrintParse {
  import opened Text
  import opened Message
  import opened Grammar
  import opened HeaderSections
  import opened SelfDelimiting

  /** The white space a value begins and ends with. */
  function Lead(v: string): string {
    v[..LStripLen(IsSpace, v)]
  }

  function Trail(v: string): string {
    var rest := v[LStripLen(IsSpace, v)..];
    rest[RStripLen(IsSpace, rest)..]
  }

  lemma ValueParts(v: string)
    ensures Lead(v) + Strip(v) + Trail(v) == v && Trimmed(Strip(v))
    ensures Trimmed(v) <==> Strip(v) == v
    ensures Trimmed(v) ==> Lead(v) == "" && Trail(v) == ""
  {
    StrippedIsTrimmed(v);
    StripInParts(v);
    hide Strip, Lead, Trail, Trimmed;
    if Trimmed(v) {
      TrimmedParts(v);
    }
  }

  lemma StripInParts(v: string)
    ensures Lead(v) + Strip(v) + Trail(v) == v
  {
    hide LStripLen, RStripLen, IsSpace;
    var rest := v[LStripLen(IsSpace, v)..];
    var n := RStripLen(IsSpace, rest);
    assert v == Lead(v) + rest && rest == rest[..n] + rest[n..];
    assert Lead(v) + (rest[..n] + rest[n..]) == Lead(v) + rest[..n] + rest[n..];
  }

  lemma TrimmedParts(v: string)
    requires Trimmed(v)
    ensures Strip(v) == v && Lead(v) == "" && Trail(v) == ""
  {
    hide LStripLen, RStripLen, IsSpace;
    assert LStripLen(IsSpace, v) == 0 && v[0..] == v;
    assert RStripLen(IsSpace, v) == |v|;
  }

  lemma StrippedIsTrimmed(v: string)
    ensures Trimmed(Strip(v))
  {
    hide LStripLen, RStripLen, IsSpace;
    var rest := v[LStripLen(IsSpace, v)..];
    assert Strip(v) == rest[..RStripLen(IsSpace, rest)];
  }

  /** The header line the printer writes. */
  function FieldOf(h: Header): Field {
    Field(h.name, " " + Lead(h.value), Strip(h.value), Trail(h.value), [])
  }

  function FieldsOf(hs: seq<Header>): (fs: seq<Field>)
    ensures |fs| == |hs|
    ensures forall i | 0 <= i < |hs| :: fs[i] == FieldOf(hs[i])
  {
    if hs == [] then [] else [FieldOf(hs[0])] + FieldsOf(hs[1..])
  }

  /** A value that fits on one line; any white space around it is spaces and tabs. */
  predicate PrintableValue(v: string) {
    '\n' !in v && All(IsBlank, Lead(v)) && All(IsBlank, Trail(v))
  }

  predicate PrintableHeaders(hs: seq<Header>, isH2: bool) {
    forall i | 0 <= i < |hs| :: ValidName(hs[i].name, isH2) && PrintableValue(hs[i].value)
  }

  lemma OneLineIsPrintable(v: string)
    requires OneLine(v)
    ensures PrintableValue(v)
  {
    ValueParts(v);
  }

  /** The headers without the white space around their values. */
  function Stripped(hs: seq<Header>): (r: seq<Header>)
    ensures |r| == |hs| && forall i | 0 <= i < |hs| :: r[i] == hs[i].(value := Strip(hs[i].value))
  {
    if hs == [] then [] else [hs[0].(value := Strip(hs[0].value))] + Stripped(hs[1..])
  }

  predicate AllTrimmed(hs: seq<Header>) {
    forall i | 0 <= i < |hs| :: Trimmed(hs[i].value)
  }

  lemma StrippedIff(hs: seq<Header>)
    ensures Stripped(hs) == hs <==> AllTrimmed(hs)
  {
    hide Trimmed, Strip;
    forall i | 0 <= i < |hs| ensures Trimmed(hs[i].value) <==> Stripped(hs)[i] == hs[i] {
      ValueParts(hs[i].value);
    }
  }

  lemma PrintableField(h: Header, isH2: bool)
    requires ValidName(h.name, isH2) && PrintableValue(h.value)
    ensures ValidField(FieldOf(h), isH2)
  {
    hide Strip, ValidName, Lead, Trail;
    ValueParts(h.value);
    assert forall c | c in Strip(h.value) :: c in h.value;
  }

  lemma PrintableIsValid(hs: seq<Header>, isH2: bool)
    requires PrintableHeaders(hs, isH2)
    ensures ValidFields(FieldsOf(hs), isH2) && Unfolded(FieldsOf(hs))
  {
    hide ValidField, ValidName, PrintableValue;
    forall i | 0 <= i < |hs| ensures ValidField(FieldsOf(hs)[i], isH2) {
      assert ValidName(hs[i].name, isH2) && PrintableValue(hs[i].value);
      PrintableField(hs[i], isH2);
    }
  }

  lemma {:induction false} HeadersOfFieldsOf(hs: seq<Header>)
    ensures HeadersOf(FieldsOf(hs)) == Stripped(hs)
  {
    if hs == [] {
    } else {
      hide Strip, Lead, Trail;
      HeadersOfFieldsOf(hs[1..]);
      var fs := FieldsOf(hs);
      assert fs[0] == FieldOf(hs[0]) && fs[1..] == FieldsOf(hs[1..]);
      assert FoldedValue(Strip(hs[0].value), []) == Strip(hs[0].value);
    }
  }

  lemma {:induction false} PrintedSection(hs: seq<Header>, t: string)
    ensures SectionWire(FieldsOf(hs), t) == PrintHeaders(hs) + "\r\n" + t
  {
    if hs == [] {
      assert "" + "\r\n" + t == "\r\n" + t;
    } else {
      hide FieldWire, FieldOf;
      PrintedSection(hs[1..], t);
      var fs := FieldsOf(hs);
      assert fs[0] == FieldOf(hs[0]) && fs[1..] == FieldsOf(hs[1..]);
      PrintedField(hs[0], PrintHeaders(hs[1..]) + "\r\n" + t);
      RegroupField(hs[0].name + ": " + hs[0].value + "\r\n", PrintHeaders(hs[1..]), "\r\n", t);
    }
  }

  lemma RegroupField(a: string, b: string, c: string, d: string)
    ensures a + (b + c + d) == a + b + c + d
  {
  }

  lemma PrintedField(h: Header, t: string)
    ensures FieldWire(FieldOf(h), t) == h.name + ": " + h.value + "\r\n" + t
  {
    hide Lead, Trail, Strip;
    assert FoldsWire([], t) == t;
    ValueParts(h.value);
    RegroupValue(h.name, Lead(h.value), Strip(h.value), Trail(h.value));
  }

  lemma RegroupValue(name: string, lead: string, value: string, trail: string)
    ensures name + ":" + (" " + lead + value + trail) == name + ": " + (lead + value + trail)
  {
  }

  /** Printed header lists are read with their values stripped, whatever text follows. */
  lemma PrintedHeadersRead(hs: seq<Header>, isH2: bool, t: string)
    requires PrintableHeaders(hs, isH2)
    ensures ParseFields(PrintHeaders(hs) + "\r\n" + t, false, isH2) == Ok(Stripped(hs), t)
  {
    hide ParseFields, PrintHeaders;
    PrintableIsValid(hs, isH2);
    PrintedSection(hs, t);
    HeadersOfFieldsOf(hs);
    SectionRead(FieldsOf(hs), t, false, isH2);
  }

  /**
   Header lists survive printing and parsing, HTTP/2 lists with their
   pseudo-headers included, exactly when no value has white space around it.
   */
  lemma HeadersRoundTripIff(hs: seq<Header>, isH2: bool, t: string)
    requires PrintableHeaders(hs, isH2)
    ensures ParseFields(PrintHeaders(hs) + "\r\n" + t, false, isH2) == Ok(hs, t) <==> AllTrimmed(hs)
  {
    PrintedHeadersRead(hs, isH2, t);
    StrippedIff(hs);
  }

  /** A request whose fields the printer can write, with `b` the syntax of its body. */
  predicate Printable(r: Request, b: WireBody) {
    var hs := Stripped(r.content.headers);
    var body := r.content.body;
    && ValidRequestLine(r.line, false)
    && PrintableHeaders(r.content.headers, false) && PrintableHeaders(body.trailer, false)
    && ValidBody(RequestFraming(hs), hs, b) && BodyMeaning(b) == Body(body.text, Stripped(body.trailer))
    && (b.Chunks? ==> b.trailer == FieldsOf(body.trailer))
  }

  /** The request as it is read back. */
  function ReadBack(r: Request): Request {
    Request(r.line, Content(Stripped(r.content.headers), Body(r.content.body.text, Stripped(r.content.body.trailer))))
  }

  /** The message the printed text of a request is, up to the line end of its trailer section. */
  function Printed(r: Request, b: WireBody): WireRequest {
    WireRequest(0, r.line, false, FieldsOf(r.content.headers), b)
  }

  lemma PrintedIsValid(r: Request, b: WireBody)
    requires Printable(r, b)
    ensures ValidRequest(Printed(r, b)) && RequestMeaning(Printed(r, b)) == ReadBack(r)
  {
    hide ValidBody, BodyMeaning;
    PrintableIsValid(r.content.headers, false);
    HeadersOfFieldsOf(r.content.headers);
  }

  lemma BodyWithTrailer(b: WireBody, hs: seq<Header>)
    requires b.Chunks? && b.trailer == FieldsOf(hs)
    ensures BodyWire(b, "") == BodyMeaning(b).text + PrintHeaders(hs) + (if hs == [] then "" else "\r\n")
  {
    hide PrintHeaders, ChunksWire, SizeLine;
    var line := SizeLine(b.last.size, b.last.ext);
    PrintedSection(hs, "");
    NoHeadersPrinted();
    if hs == [] {
      assert SectionWire(b.trailer, "") == "\r\n";
    } else {
      var end := PrintHeaders(hs) + "\r\n";
      assert PrintHeaders(hs) + "\r\n" + "" == end;
      ChunksAppend(b.chunks, line, end);
      assert line + "" == line;
    }
  }

  lemma NoHeadersPrinted()
    ensures PrintHeaders([]) == ""
  {
  }

  lemma PrintedText(r: Request, b: WireBody)
    requires Printable(r, b)
    ensures var trailer := r.content.body.trailer;
            RequestWire(Printed(r, b), "") == PrintRequest(r) + (if trailer == [] then "" else "\r\n")
  {
    hide PrintHeaders, BodyWire, ValidBody, BodyMeaning, ParseInt, RequestLineText, Printable, FieldsOf;
    PrintedLine(r.line);
    var trailer := r.content.body.trailer;
    var end := if trailer == [] then "" else "\r\n";
    PrintedBody(r, b);
    PrintedSection(r.content.headers, BodyWire(b, ""));
    var line, headers := RequestLineText(r.line, false), PrintHeaders(r.content.headers);
    Regroup(line, headers, r.content.body.text, PrintHeaders(trailer), end);
  }

  lemma PrintedLine(l: RequestLine)
    ensures RequestLineText(l, false) == l.method_ + " " + l.uri + " " + l.version
  {
  }

  lemma Regroup(first: string, headers: string, text: string, trailer: string, end: string)
    ensures first + "\r\n" + (headers + "\r\n" + (text + trailer + end))
         == first + "\r\n" + headers + "\r\n" + text + trailer + end
  {
  }

  lemma PrintedBody(r: Request, b: WireBody)
    requires Printable(r, b)
    ensures var body := r.content.body;
            BodyWire(b, "") == body.text + PrintHeaders(body.trailer) + (if body.trailer == [] then "" else "\r\n")
  {
    NoHeadersPrinted();
    match b {
      case Empty => assert r.content.body == Body("", []);
      case Plain(text) => assert r.content.body == Body(text, []) && text + "" + "" == text + "";
      case Chunks(_, _, _) => BodyWithTrailer(b, r.content.body.trailer);
    }
  }

  /**
   Printing and parsing give the same request back, with nothing left of the
   text, exactly when there is no trailer and no header value has white space
   around it. With a trailer, the printed text lacks the empty line at its end
   and is reported incomplete; without, only that white space is lost.
   */
  lemma RequestRoundTripIff(r: Request, b: WireBody)
    requires Printable(r, b)
    ensures ParseRequest(PrintRequest(r)) == Ok(r, "")
       <==> r.content.body.trailer == [] && AllTrimmed(r.content.headers)
    ensures ParseRequest(PrintRequest(r)) == if r.content.body.trailer == [] then Ok(ReadBack(r), "") else Incomplete
  {
    hide ParseRequest, PrintRequest, Printable, AllTrimmed, Stripped;
    StrippedIff(r.content.headers);
    if r.content.body.trailer == [] {
      PrintedRequestRead(r, b, "");
      assert PrintRequest(r) + "" == PrintRequest(r);
      assert Stripped([]) == [] by { NothingStripped(); }
    } else {
      PrintedTrailerCut(r, b);
    }
  }

  lemma NothingStripped()
    ensures Stripped([]) == []
  {
  }

  lemma PrintedTrailerCut(r: Request, b: WireBody)
    requires Printable(r, b) && r.content.body.trailer != []
    ensures ParseRequest(PrintRequest(r)) == Incomplete
  {
    hide ParseRequest, PrintRequest, ValidRequest, RequestMeaning, RequestWire, BodyMeaning;
    hide Printable, ValidFields, FieldsOf;
    PrintedIsValid(r, b);
    PrintedText(r, b);
    HasTrailer(r, b);
    PrintableIsValid(r.content.body.trailer, false);
    PrintedNotEmpty(r);
    RequestCut(Printed(r, b), PrintRequest(r), "\r\n");
  }

  lemma HasTrailer(r: Request, b: WireBody)
    requires Printable(r, b) && r.content.body.trailer != []
    ensures b.Chunks? && b.trailer == FieldsOf(r.content.body.trailer)
    ensures PrintableHeaders(r.content.body.trailer, false)
  {
  }

  lemma PrintedNotEmpty(r: Request)
    ensures PrintRequest(r) != ""
  {
  }

  /** A printed request without trailers may be followed by anything. */
  lemma PrintedRequestRead(r: Request, b: WireBody, t: string)
    requires Printable(r, b) && r.content.body.trailer == []
    ensures ParseRequest(PrintRequest(r) + t) == Ok(ReadBack(r), t)
  {
    hide ParseRequest, PrintRequest, ValidRequest, RequestMeaning, RequestWire, BodyMeaning, Printable;
    PrintedIsValid(r, b);
    PrintedText(r, b);
    RequestRead(Printed(r, b), t);
    assert PrintRequest(r) + "" == PrintRequest(r);
  }
}
