/**
 Translating an HTTP/2 header list and body to the HTTP/1 request the proxy is
 expected to forward.
 */
module Translate {
  import opened Text
  import opened Message
  import opened Grammar
  import opened Headers
  import opened PrintParse

  /** The request being put together; its uri is not set until `:path` is seen. */
  datatype Draft = Draft(
    method_: string, uri: Option<string>, version: string, headers: seq<Header>, cookies: seq<string>)

  const BLANK := Draft("GET", None, DEFAULT_VERSION, [], [])

  function AddField(d: Draft, h: Header): Draft {
    if h.name == ":authority" then d.(headers := d.headers + [Header("host", h.value)])
    else if h.name == ":path" then d.(uri := Some(h.value))
    else if h.name == ":method" then d.(method_ := h.value)
    else if h.name == ":scheme" then d.(version := "HTTP/1.1")
    else if h.name == "cookie" then d.(cookies := d.cookies + [h.value])
    else d.(headers := d.headers + [h])
  }

  function Collect(hs: seq<Header>): Draft {
    if hs == [] then BLANK else AddField(Collect(hs[..|hs| - 1]), hs[|hs| - 1])
  }

  /** Only the first of several hosts is kept, at the end of the list. */
  function OneHost(hs: seq<Header>): seq<Header> {
    var hosts := FindAll(hs, "host");
    if |hosts| > 1 then SetFirst(Without(hs, "host"), "host", hosts[0]) else hs
  }

  function JoinCookies(hs: seq<Header>, cookies: seq<string>): seq<Header> {
    if cookies == [] then hs else hs + [Header("cookie", Join("; ", cookies))]
  }

  function SetLength(hs: seq<Header>, body: string): seq<Header> {
    if body == "" then hs else Without(hs, "content-length") + [Header("content-length", PrintNat(|body|, 10))]
  }

  function FinishedHeaders(d: Draft, body: string): seq<Header> {
    SetLength(JoinCookies(OneHost(d.headers), d.cookies), body)
  }

  /** The request, or None when there is no `:path` and printing fails. */
  function Translated(hs: seq<Header>, body: string): Option<Request> {
    var d := Collect(hs);
    if d.uri.None? then None
    else
      var line := RequestLine(d.method_, d.uri.value, d.version);
      Some(Request(line, Content(FinishedHeaders(d, body), Body(body, []))))
  }

  /** `create_request_from_list_or_tuple` */
  method CreateRequest(hs: seq<Header>, body: string) returns (text: Option<string>)
    ensures text == match Translated(hs, body) case None => None case Some(r) => Some(PrintRequest(r))
  {
    hide PrintRequest, PrintNat, Join;
    var method_, uri: Option<string>, version := "GET", None, DEFAULT_VERSION;
    var collection := new HeaderCollection([], false, 0);
    var cookies: seq<string> := [];
    for i := 0 to |hs|
      invariant fresh(collection)
      invariant Draft(method_, uri, version, collection.headers, cookies) == Collect(hs[..i])
    {
      var h := hs[i];
      assert hs[..i + 1][..i] == hs[..i];
      if h.name == ":authority" {
        collection.Add("host", h.value);
      } else if h.name == ":path" {
        uri := Some(h.value);
      } else if h.name == ":method" {
        method_ := h.value;
      } else if h.name == ":scheme" {
        version := "HTTP/1.1";
      } else if h.name == "cookie" {
        cookies := cookies + [h.value];
      } else {
        collection.Add(h.name, h.value);
      }
    }
    assert hs[..|hs|] == hs;
    var hosts := FindAll(collection.headers, "host");
    if |hosts| > 1 {
      collection.DeleteAll("host");
      collection.SetItem("host", hosts[0]);
    }
    if cookies != [] {
      collection.Add("cookie", Join("; ", cookies));
    }
    if body != "" {
      collection.DeleteAll("content-length");
      collection.Add("content-length", PrintNat(|body|, 10));
    }
    if uri.None? {
      return None;
    }
    text := Some(PrintRequest(
      Request(RequestLine(method_, uri.value, version), Content(collection.headers, Body(body, [])))));
  }

  // ------------------------------------------------------------ well-formed lists

  const PSEUDO := [":authority", ":path", ":method", ":scheme"]

  /** A request header list as sections 8.2 and 8.3.1 of RFC 9113 have it, whose values fit on HTTP/1 lines. */
  predicate WellFormed(hs: seq<Header>, body: string) {
    && (forall i | 0 <= i < |hs| :: hs[i].name in PSEUDO || (FieldName(hs[i].name) && Lower(hs[i].name) == hs[i].name))
    && (forall i | 0 <= i < |hs| :: OneLine(hs[i].value))
    && |FindAll(hs, ":method")| == 1 && FindAll(hs, ":method")[0] in METHODS && Token(FindAll(hs, ":method")[0])
    && |FindAll(hs, ":path")| == 1 && Token(FindAll(hs, ":path")[0])
    && |FindAll(hs, ":scheme")| == 1
    && FindAll(hs, "transfer-encoding") == []
    && (body == "" ==> FindAll(hs, "content-length") == [])
  }

  /** The values of `:authority` and `host`, in order. */
  function Hosts(hs: seq<Header>): seq<string> {
    if hs == [] then []
    else
      var h := hs[|hs| - 1];
      Hosts(hs[..|hs| - 1]) + if h.name == ":authority" || h.name == "host" then [h.value] else []
  }

  predicate IsOther(name: string) {
    name !in PSEUDO && name != "host" && name != "cookie" && name != "content-length"
  }

  /** The headers that are passed on as they are. */
  function Others(hs: seq<Header>): seq<Header> {
    if hs == [] then []
    else
      var h := hs[|hs| - 1];
      Others(hs[..|hs| - 1]) + if IsOther(h.name) then [h] else []
  }

  /** A header that HTTP/1 can carry; only a cookie may end in white space. */
  predicate Plain(h: Header) {
    && FieldName(h.name) && Lower(h.name) == h.name
    && (OneLine(h.value) || (h.name == "cookie" && PrintableValue(h.value)))
  }

  predicate AllPlain(hs: seq<Header>) {
    forall i | 0 <= i < |hs| :: Plain(hs[i])
  }

  predicate AllOneLine(values: seq<string>) {
    forall i | 0 <= i < |values| :: OneLine(values[i])
  }

  lemma FindAllSnoc(hs: seq<Header>, h: Header, name: string)
    ensures FindAll(hs + [h], name) == FindAll(hs, name) + if SameName(h.name, name) then [h.value] else []
  {
    FindAllConcat(hs, [h], name);
    OneHeader(h, name);
  }

  /** The names the translation looks for are their own lower case. */
  lemma KnownNames()
    ensures Lower("host") == "host" && Lower("cookie") == "cookie" && Lower("content-length") == "content-length"
    ensures Lower(":path") == ":path" && Lower(":method") == ":method" && Lower(":scheme") == ":scheme"
    ensures Lower(":authority") == ":authority" && Lower("transfer-encoding") == "transfer-encoding"
  {
  }

  predicate Regular(h: Header) {
    (h.name in PSEUDO || (FieldName(h.name) && Lower(h.name) == h.name)) && OneLine(h.value)
  }

  function LastOr(values: seq<string>, default: string): string {
    if values == [] then default else values[|values| - 1]
  }

  /** What the loop over the list has gathered. */
  predicate Gathered(hs: seq<Header>, d: Draft) {
    && AllPlain(d.headers)
    && d.method_ == LastOr(FindAll(hs, ":method"), "GET")
    && d.uri == (if FindAll(hs, ":path") == [] then None else Some(LastOr(FindAll(hs, ":path"), "")))
    && d.version == (if FindAll(hs, ":scheme") == [] then DEFAULT_VERSION else "HTTP/1.1")
    && d.cookies == FindAll(hs, "cookie")
    && FindAll(d.headers, "cookie") == []
    && FindAll(d.headers, "host") == Hosts(hs)
    && FindAll(d.headers, "content-length") == FindAll(hs, "content-length")
    && FindAll(d.headers, "transfer-encoding") == FindAll(hs, "transfer-encoding")
    && Others(d.headers) == Others(hs)
  }

  lemma OthersSnoc(hs: seq<Header>, h: Header)
    ensures Others(hs + [h]) == Others(hs) + if IsOther(h.name) then [h] else []
    ensures Hosts(hs + [h]) == Hosts(hs) + if h.name == ":authority" || h.name == "host" then [h.value] else []
  {
    assert (hs + [h])[..|hs|] == hs;
  }

  /** A header that is added to the draft. */
  lemma HeaderAdded(hs: seq<Header>, d: Draft, h: Header, added: Header)
    requires Gathered(hs, d) && Regular(h)
    requires if h.name == ":authority" then added == Header("host", h.value)
             else h.name !in PSEUDO && h.name != "cookie" && added == h
    ensures Gathered(hs + [h], d.(headers := d.headers + [added]))
  {
    hide FindAll, FieldName, OneLine, Lower, Others, Hosts;
    KnownNames();
    assert Plain(added) by { HostIsName(); }
    forall name
      ensures FindAll(hs + [h], name) == FindAll(hs, name) + if SameName(h.name, name) then [h.value] else []
    {
      FindAllSnoc(hs, h, name);
    }
    forall name
      ensures FindAll(d.headers + [added], name)
           == FindAll(d.headers, name) + if SameName(added.name, name) then [added.value] else []
    {
      FindAllSnoc(d.headers, added, name);
    }
    OthersSnoc(hs, h);
    OthersSnoc(d.headers, added);
  }

  lemma HostIsName()
    ensures FieldName("host")
  {
  }

  /** A header that is noted elsewhere. */
  lemma HeaderNoted(hs: seq<Header>, d: Draft, h: Header)
    requires Gathered(hs, d) && h.name in [":path", ":method", ":scheme", "cookie"]
    ensures Gathered(hs + [h], AddField(d, h))
  {
    hide FindAll, FieldName, OneLine, Lower, Others, Hosts, AllPlain;
    KnownNames();
    FindAllSnoc(hs, h, ":method");
    FindAllSnoc(hs, h, ":path");
    FindAllSnoc(hs, h, ":scheme");
    FindAllSnoc(hs, h, "cookie");
    FindAllSnoc(hs, h, "content-length");
    FindAllSnoc(hs, h, "transfer-encoding");
    OthersSnoc(hs, h);
  }

  lemma {:induction false} CollectGathers(hs: seq<Header>)
    requires forall i | 0 <= i < |hs| :: Regular(hs[i])
    ensures Gathered(hs, Collect(hs))
  {
    hide Gathered, Regular;
    if hs == [] {
      NothingGathered();
    } else {
      var before, h := hs[..|hs| - 1], hs[|hs| - 1];
      CollectGathers(before);
      assert hs == before + [h];
      var d := Collect(before);
      if h.name in [":path", ":method", ":scheme", "cookie"] {
        HeaderNoted(before, d, h);
      } else if h.name == ":authority" {
        HeaderAdded(before, d, h, Header("host", h.value));
      } else {
        HeaderAdded(before, d, h, h);
      }
    }
  }

  lemma NothingGathered()
    ensures Gathered([], BLANK)
  {
  }

  // ------------------------------------------------------------- the finished headers

  lemma WithoutNothing(name: string)
    ensures Without([], name) == []
  {
  }

  lemma WithoutSnoc(hs: seq<Header>, h: Header, name: string)
    ensures Without(hs + [h], name) == if SameName(h.name, name) then Without(hs, name) else Without(hs, name) + [h]
  {
    WithoutConcat(hs, [h], name);
    assert [h][1..] == [];
    assert Without([h], name) == if SameName(h.name, name) then [] else [h];
    assert Without(hs, name) + [] == Without(hs, name);
  }

  lemma {:induction false} WithoutOthers(hs: seq<Header>, name: string)
    requires AllPlain(hs) && !IsOther(name) && Lower(name) == name
    ensures Others(Without(hs, name)) == Others(hs) && AllPlain(Without(hs, name))
    decreases |hs|
  {
    hide FieldName, OneLine, Lower, Others, Without;
    if hs == [] {
      assert Without(hs, name) == hs by { WithoutNothing(name); }
    } else {
      var before, h := hs[..|hs| - 1], hs[|hs| - 1];
      assert Plain(h);
      WithoutOthers(before, name);
      assert hs == before + [h];
      WithoutSnoc(before, h, name);
      OthersSnoc(before, h);
      OthersSnoc(Without(before, name), h);
    }
  }

  /** Setting a name that is not there adds it at the end. */
  lemma {:induction false} SetFirstAppends(hs: seq<Header>, name: string, value: string)
    requires FindAll(hs, name) == []
    ensures SetFirst(hs, name, value) == hs + [Header(Lower(name), value)]
  {
    if hs == [] {
    } else {
      SetFirstAppends(hs[1..], name, value);
      assert hs == [hs[0]] + hs[1..];
    }
  }

  predicate SameRest(a: seq<Header>, b: seq<Header>) {
    Others(a) == Others(b) && FindAll(a, "transfer-encoding") == FindAll(b, "transfer-encoding")
  }

  lemma OneHostKeeps(hs: seq<Header>)
    requires AllPlain(hs)
    ensures var r := OneHost(hs);
            && AllPlain(r) && SameRest(r, hs)
            && FindAll(r, "host") == (if FindAll(hs, "host") == [] then [] else [FindAll(hs, "host")[0]])
            && FindAll(r, "cookie") == FindAll(hs, "cookie")
            && FindAll(r, "content-length") == FindAll(hs, "content-length")
  {
    hide FindAll, Others, Without, SetFirst, FieldName, Lower, OneLine;
    KnownNames();
    var hosts := FindAll(hs, "host");
    if |hosts| > 1 {
      var w := Without(hs, "host");
      WithoutOthers(hs, "host");
      WithoutKeepsOthers(hs, "host", "host");
      WithoutKeepsOthers(hs, "host", "cookie");
      WithoutKeepsOthers(hs, "host", "content-length");
      WithoutKeepsOthers(hs, "host", "transfer-encoding");
      SetFirstAppends(w, "host", hosts[0]);
      var h := Header("host", hosts[0]);
      ValuesPlain(hs, "host");
      HostIsName();
      OthersSnoc(w, h);
      FindAllSnoc(w, h, "host");
      FindAllSnoc(w, h, "cookie");
      FindAllSnoc(w, h, "content-length");
      FindAllSnoc(w, h, "transfer-encoding");
    } else {
      assert hosts == [] || hosts == [hosts[0]];
    }
  }

  lemma {:induction false} ValuesPlain(hs: seq<Header>, name: string)
    requires AllPlain(hs) && Lower(name) == name && name != "cookie"
    ensures AllOneLine(FindAll(hs, name))
  {
    if hs == [] {
    } else {
      hide Lower, OneLine, FieldName, PrintableValue;
      assert Plain(hs[0]);
      ValuesPlain(hs[1..], name);
    }
  }

  predicate CookiesFit(cookies: seq<string>) {
    |cookies| <= 1 || cookies[|cookies| - 1] != ""
  }

  /**
   Cookies always join to a value that fits on a line; it has no white space at
   its end exactly when the last of several cookies is not empty.
   */
  lemma {:induction false} JoinedIsOneLine(cookies: seq<string>)
    requires AllOneLine(cookies)
    ensures OneLine(Join("; ", cookies)) <==> CookiesFit(cookies)
    ensures PrintableValue(Join("; ", cookies)) && (|cookies| > 1 ==> |Join("; ", cookies)| >= 2)
    ensures Join("; ", cookies) == "" || !IsSpace(Join("; ", cookies)[0])
  {
    hide PrintableValue, IsSpace;
    if |cookies| <= 1 {
      OneLineIsPrintable(Join("; ", cookies));
    } else {
      hide OneLine;
      var rest := Join("; ", cookies[1..]);
      JoinedIsOneLine(cookies[1..]);
      assert OneLine(cookies[0]);
      assert Join("; ", cookies) == cookies[0] + "; " + rest && (|cookies| == 2 ==> rest == cookies[1]);
      JoinedTwo(cookies[0], rest);
    }
  }

  lemma JoinedTwo(first: string, rest: string)
    requires OneLine(first) && PrintableValue(rest) && (rest == "" || !IsSpace(rest[0]))
    ensures var s := first + "; " + rest;
            && PrintableValue(s) && !IsSpace(s[0]) && (OneLine(s) <==> rest != "" && OneLine(rest))
  {
    hide Strip, Lead, Trail;
    var s := first + "; " + rest;
    if rest == "" {
      EndsBlank(first + ";", " ");
      assert first + ";" + " " == s;
    } else {
      ValueParts(rest);
      NoLead(rest);
      var text := first + "; " + Strip(rest);
      assert text + Trail(rest) == s;
      EndsBlank(text, Trail(rest));
    }
  }

  lemma NoLead(v: string)
    requires v != "" && !IsSpace(v[0])
    ensures Lead(v) == "" && Strip(v) != ""
  {
    ValueParts(v);
  }

  lemma EndsBlank(text: string, blanks: string)
    requires text != "" && OneLine(text) && All(IsBlank, blanks)
    ensures PrintableValue(text + blanks) && (OneLine(text + blanks) <==> blanks == "")
  {
    var v := text + blanks;
    assert LStripLen(IsSpace, v) == 0 && v[0..] == v;
    RStripPadded(IsSpace, text, blanks);
    assert RStripLen(IsSpace, v) == |text|;
    assert Lead(v) == "" && Trail(v) == blanks;
    assert blanks == "" ==> v == text;
    assert blanks != "" ==> v[|v| - 1] == blanks[|blanks| - 1];
  }

  lemma JoinCookiesKeeps(hs: seq<Header>, cookies: seq<string>)
    requires AllPlain(hs) && FindAll(hs, "cookie") == []
    requires cookies != [] ==> PrintableValue(Join("; ", cookies))
    ensures var r := JoinCookies(hs, cookies);
            && AllPlain(r) && SameRest(r, hs)
            && FindAll(r, "cookie") == (if cookies == [] then [] else [Join("; ", cookies)])
            && FindAll(r, "host") == FindAll(hs, "host")
            && FindAll(r, "content-length") == FindAll(hs, "content-length")
  {
    hide FindAll, Others, FieldName, Lower, OneLine, Join, PrintableValue;
    KnownNames();
    if cookies != [] {
      var h := Header("cookie", Join("; ", cookies));
      assert FieldName("cookie") by { CookieIsName(); }
      OthersSnoc(hs, h);
      FindAllSnoc(hs, h, "host");
      FindAllSnoc(hs, h, "cookie");
      FindAllSnoc(hs, h, "content-length");
      FindAllSnoc(hs, h, "transfer-encoding");
    }
  }

  lemma CookieIsName()
    ensures FieldName("cookie") && FieldName("content-length")
  {
  }

  lemma SetLengthKeeps(hs: seq<Header>, body: string)
    requires AllPlain(hs) && (body == "" ==> FindAll(hs, "content-length") == [])
    ensures var r := SetLength(hs, body);
            && AllPlain(r) && SameRest(r, hs)
            && FindAll(r, "content-length") == (if body == "" then [] else [PrintNat(|body|, 10)])
            && FindAll(r, "host") == FindAll(hs, "host") && FindAll(r, "cookie") == FindAll(hs, "cookie")
  {
    hide FindAll, Others, Without, FieldName, Lower, OneLine, PrintNat;
    KnownNames();
    if body != "" {
      var w := Without(hs, "content-length");
      var h := Header("content-length", PrintNat(|body|, 10));
      WithoutOthers(hs, "content-length");
      WithoutKeepsOthers(hs, "content-length", "host");
      WithoutKeepsOthers(hs, "content-length", "cookie");
      WithoutKeepsOthers(hs, "content-length", "content-length");
      WithoutKeepsOthers(hs, "content-length", "transfer-encoding");
      CookieIsName();
      DigitsAreOneLine(PrintNat(|body|, 10));
      OthersSnoc(w, h);
      FindAllSnoc(w, h, "host");
      FindAllSnoc(w, h, "cookie");
      FindAllSnoc(w, h, "content-length");
      FindAllSnoc(w, h, "transfer-encoding");
    }
  }

  lemma DigitsAreOneLine(s: string)
    requires s != "" && AllDigits(s, 10)
    ensures OneLine(s)
  {
    assert IsDigit(s[0], 10) && IsDigit(s[|s| - 1], 10);
  }

  /** The headers of the translated request, by name and in order. */
  predicate RightHeaders(hs: seq<Header>, body: string, r: seq<Header>) {
    && AllPlain(r)
    && FindAll(r, "host") == (if Hosts(hs) == [] then [] else [Hosts(hs)[0]])
    && FindAll(r, "cookie") == (if FindAll(hs, "cookie") == [] then [] else [Join("; ", FindAll(hs, "cookie"))])
    && FindAll(r, "content-length") == (if body == "" then [] else [PrintNat(|body|, 10)])
    && FindAll(r, "transfer-encoding") == []
    && Others(r) == Others(hs)
  }

  lemma {:induction false} ListValuesOneLine(hs: seq<Header>, name: string)
    requires forall i | 0 <= i < |hs| :: OneLine(hs[i].value)
    ensures AllOneLine(FindAll(hs, name))
  {
    if hs == [] {
    } else {
      ListValuesOneLine(hs[1..], name);
    }
  }

  lemma HeadersAreRight(hs: seq<Header>, body: string)
    requires WellFormed(hs, body)
    ensures RightHeaders(hs, body, FinishedHeaders(Collect(hs), body))
  {
    hide FindAll, Others, OneLine, PrintableValue, FieldName, Lower, AllPlain, Hosts;
    hide OneHost, JoinCookies, SetLength, Join, PrintNat;
    var d := Collect(hs);
    CollectGathers(hs);
    ListValuesOneLine(hs, "cookie");
    JoinedIsOneLine(FindAll(hs, "cookie"));
    OneHostKeeps(d.headers);
    JoinCookiesKeeps(OneHost(d.headers), d.cookies);
    SetLengthKeeps(JoinCookies(OneHost(d.headers), d.cookies), body);
  }

  // ------------------------------------------------------------------------ round trip

  lemma PlainIsPrintable(hs: seq<Header>)
    requires AllPlain(hs)
    ensures PrintableHeaders(hs, false)
  {
    hide OneLine, PrintableValue, FieldName, Lower;
    forall i | 0 <= i < |hs| ensures ValidName(hs[i].name, false) && PrintableValue(hs[i].value) {
      assert Plain(hs[i]);
      if OneLine(hs[i].value) {
        OneLineIsPrintable(hs[i].value);
      }
    }
  }

  /** Stripping leaves values alone that have no white space around them. */
  lemma {:induction false} FindAllStripped(hs: seq<Header>, name: string)
    requires AllOneLine(FindAll(hs, name))
    ensures FindAll(Stripped(hs), name) == FindAll(hs, name)
  {
    if hs == [] {
    } else {
      hide Strip, Lower;
      var first := if SameName(hs[0].name, name) then [hs[0].value] else [];
      var rest := FindAll(hs[1..], name);
      assert FindAll(hs, name) == first + rest;
      forall i | 0 <= i < |rest| ensures OneLine(rest[i]) {
        assert rest[i] == FindAll(hs, name)[|first| + i];
      }
      FindAllStripped(hs[1..], name);
      assert Stripped(hs)[1..] == Stripped(hs[1..]);
      if SameName(hs[0].name, name) {
        assert FindAll(hs, name)[0] == hs[0].value;
        ValueParts(hs[0].value);
      }
    }
  }

  /** How the parser will frame the body. */
  lemma FramingIsRight(hs: seq<Header>, body: string)
    requires FindAll(hs, "transfer-encoding") == []
    requires FindAll(hs, "content-length") == (if body == "" then [] else [PrintNat(|body|, 10)])
    ensures ValidBody(RequestFraming(hs), hs, if body == "" then Empty else WireBody.Plain(body))
  {
    hide FindAll, ParseInt, PrintNat, Get, Lower;
    assert Lower("Transfer-Encoding") == "transfer-encoding" && Lower("Content-Length") == "content-length" by {
      CanonicalNames();
    }
    FindAllByLower(hs, "Transfer-Encoding");
    FindAllByLower(hs, "Content-Length");
    GetIsFirst(hs, "Transfer-Encoding");
    GetIsFirst(hs, "Content-Length");
    ParsePrinted(|body|, 10);
  }

  lemma CanonicalNames()
    ensures Lower("Transfer-Encoding") == "transfer-encoding" && Lower("Content-Length") == "content-length"
  {
  }

  lemma VersionIsToken()
    ensures Token("HTTP/1.1")
  {
  }

  /** The headers are trimmed exactly when the cookies are. */
  lemma {:induction false} TrimmedIff(r: seq<Header>)
    requires AllPlain(r)
    ensures AllTrimmed(r) <==> AllOneLine(FindAll(r, "cookie"))
  {
    if r == [] {
    } else {
      hide FieldName, PrintableValue, Lower, AllTrimmed, AllOneLine, OneLine, Trimmed;
      KnownNames();
      assert Plain(r[0]);
      TrimmedIff(r[1..]);
      TrimmedCons(r);
      PlainIsOneLineIff(r[0]);
      AllOneLineCons(r[0].value, FindAll(r[1..], "cookie"));
      assert [] + FindAll(r[1..], "cookie") == FindAll(r[1..], "cookie");
    }
  }

  lemma AllOneLineCons(v: string, values: seq<string>)
    ensures AllOneLine([v] + values) <==> OneLine(v) && AllOneLine(values)
  {
    hide OneLine;
    assert ([v] + values)[0] == v;
    assert forall i | 0 <= i < |values| :: values[i] == ([v] + values)[i + 1];
  }

  lemma PlainIsOneLineIff(h: Header)
    requires Plain(h)
    ensures OneLine(h.value) <==> Trimmed(h.value)
    ensures !OneLine(h.value) ==> h.name == "cookie"
  {
  }

  lemma TrimmedCons(r: seq<Header>)
    requires r != []
    ensures AllTrimmed(r) <==> Trimmed(r[0].value) && AllTrimmed(r[1..])
  {
    hide Trimmed;
    assert forall i | 0 < i < |r| :: r[i] == r[1..][i - 1];
  }

  /** What the translated request is, whatever the cookies. */
  lemma TranslatedRequest(hs: seq<Header>, body: string)
    requires WellFormed(hs, body)
    ensures Translated(hs, body).Some?
    ensures var r := Translated(hs, body).value;
            && r.line == RequestLine(FindAll(hs, ":method")[0], FindAll(hs, ":path")[0], "HTTP/1.1")
            && ValidRequestLine(r.line, false)
            && r.content.body == Body(body, [])
            && RightHeaders(hs, body, r.content.headers)
  {
    hide RightHeaders, FinishedHeaders, FindAll, Token, OneLine, Lower, FieldName;
    CollectGathers(hs);
    HeadersAreRight(hs, body);
    VersionIsToken();
  }

  /**
   The translated request has the method, path and body of the list; one Host,
   the first of `:authority` and `host`; one Cookie with all cookies in order;
   the length of the body; and all other headers in order. Parsing its text
   gives all of it back exactly when the last of several cookies is not empty;
   otherwise only the space after the last semicolon is lost.
   */
  lemma TranslationRoundTripIff(hs: seq<Header>, body: string)
    requires WellFormed(hs, body)
    ensures Translated(hs, body).Some?
    ensures var r := Translated(hs, body).value;
            && r.line == RequestLine(FindAll(hs, ":method")[0], FindAll(hs, ":path")[0], "HTTP/1.1")
            && r.content.body == Body(body, [])
            && RightHeaders(hs, body, r.content.headers)
            && ParseRequest(PrintRequest(r)) == Ok(ReadBack(r), "")
            && (ParseRequest(PrintRequest(r)) == Ok(r, "") <==> CookiesFit(FindAll(hs, "cookie")))
  {
    hide PrintRequest, ParseRequest, RightHeaders, FindAll, Translated, ValidRequestLine;
    hide Printable, OneLine, AllTrimmed, ReadBack, CookiesFit;
    TranslatedRequest(hs, body);
    var r := Translated(hs, body).value;
    var b := if body == "" then Empty else WireBody.Plain(body);
    RightIsPrintable(hs, body, r);
    RequestRoundTripIff(r, b);
    RightIsTrimmed(hs, body, r.content.headers);
  }

  lemma RightIsTrimmed(hs: seq<Header>, body: string, r: seq<Header>)
    requires WellFormed(hs, body) && RightHeaders(hs, body, r)
    ensures AllTrimmed(r) <==> CookiesFit(FindAll(hs, "cookie"))
  {
    hide FindAll, PrintNat, Join, Hosts, Others, OneLine, AllTrimmed, AllPlain;
    var cookies := FindAll(hs, "cookie");
    ListValuesOneLine(hs, "cookie");
    JoinedIsOneLine(cookies);
    TrimmedIff(r);
    assert FindAll(r, "cookie") != [] ==> FindAll(r, "cookie")[0] == Join("; ", cookies);
  }

  lemma RightIsPrintable(hs: seq<Header>, body: string, r: Request)
    requires RightHeaders(hs, body, r.content.headers) && ValidRequestLine(r.line, false)
    requires r.content.body == Body(body, [])
    ensures Printable(r, if body == "" then Empty else WireBody.Plain(body))
  {
    hide FindAll, ValidBody, RequestFraming, PrintNat, Join, Hosts, Others, Stripped, ValidRequestLine, AllPlain;
    var headers := r.content.headers;
    PlainIsPrintable(headers);
    if body != "" {
      DigitsAreOneLine(PrintNat(|body|, 10));
    }
    FindAllStripped(headers, "transfer-encoding");
    FindAllStripped(headers, "content-length");
    FramingIsRight(Stripped(headers), body);
    NothingStripped();
  }
}
