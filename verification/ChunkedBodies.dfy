/**
 The chunked-body reader on well-formed chunked bodies (section 4.1 of
 RFC 7230), whole and cut short, and the payloads it cannot read.
 */
module ChunkedBodies {
  import opened Text
  import opened Message
  import opened Grammar
  import opened HeaderSections

  lemma DigitsAreNoEol(size: string)
    requires AllDigits(size, 16)
    ensures NoneOf(IsEol, size) && ';' !in size && '\n' !in size
  {
  }

  lemma BeforeExtension(size: string, e: string)
    requires NoneOf(IsEol, size) && ';' !in size
    requires e == "" || e[0] == ';' || All(IsEol, e)
    ensures Before(RStripEol(size + e), ';') == size
  {
    if e != "" && e[0] == ';' {
      var s := size + e;
      var n := RStripLen(IsEol, s);
      assert s[|size|] == ';';
      assert n > |size|;
      assert s[..n] == size + ";" + s[|size| + 1..n];
      SplitOnceAt(size, ';', s[|size| + 1..n]);
    } else {
      RStripPadded(IsEol, size, e);
      assert IndexOf(size, ';') == |size|;
      assert size[..|size|] == size;
    }
  }

  /** The size is what stands before an extension or the line end. */
  lemma SizeOfLine(size: string, e: string)
    requires size != "" && AllDigits(size, 16)
    requires e == "" || e[0] == ';' || All(IsEol, e)
    ensures ChunkSize(size + e) == Some(NumberOf(size, 16))
  {
    hide ParseInt, NumberOf, Before, RStripEol;
    DigitsAreNoEol(size);
    ParseIntDigits(size, 16);
    BeforeExtension(size, e);
  }

  lemma SizeLineRead(size: string, ext: string, n: nat, t: string)
    requires ValidSize(size, ext, n)
    ensures Line(SizeLine(size, ext) + t) == SizeLine(size, ext) && After(SizeLine(size, ext) + t) == t
    ensures ChunkSize(SizeLine(size, ext)) == Some(n)
  {
    DigitsAreNoEol(size);
    FirstLine(size + ext, t);
    assert SizeLine(size, ext) == size + (ext + "\r\n");
    SizeOfLine(size, ext + "\r\n");
  }

  lemma LoneSizeLine(p: string)
    requires '\n' !in p && (p == "" || ChunkSize(p).Some?)
    ensures ReadChunks(p) == Incomplete || (ReadChunks(p).Ok? && ReadChunks(p).rest == "")
  {
    hide ChunkSize;
    assert LineEnd(p) == |p|;
    assert p[..|p|] == p && After(p) == "";
  }

  /** A size line that is cut short still has a number, and nothing after it. */
  lemma SizeLineCut(size: string, ext: string, n: nat, p: string)
    requires ValidSize(size, ext, n)
    requires p < SizeLine(size, ext)
    ensures ReadChunks(p) == Incomplete || (ReadChunks(p).Ok? && ReadChunks(p).rest == "")
  {
    hide ReadChunks, ChunkSize, NumberOf;
    DigitsAreNoEol(size);
    var whole := size + (ext + "\r\n");
    assert SizeLine(size, ext) == whole;
    assert p == whole[..|p|];
    if p != "" {
      if |p| <= |size| {
        assert p == size[..|p|];
        assert p + "" == p;
        SizeOfLine(p, "");
      } else {
        var e := (ext + "\r\n")[..|p| - |size|];
        assert p == size + e;
        assert ext == "" ==> e == "\r";
        SizeOfLine(size, e);
      }
    }
    LoneSizeLine(p);
  }

  /** One turn of the chunk loop. */
  lemma ChunkTurn(line: string, s: string, n: nat, t: string)
    requires Line(line + s) == line && After(line + s) == s && ChunkSize(line) == Some(n) && n > 0
    requires EndsLf(Line(s)) && |RStripEol(Line(s))| == n && After(s) == t
    ensures ReadChunks(line + s) == PrependText(line + Line(s), ReadChunks(t))
  {
    assert RStripEol("") == "";
  }

  lemma PayloadLine(data: string, t: string)
    requires ReadablePayload(data)
    ensures Line(data + "\r\n" + t) == data + "\r\n" && After(data + "\r\n" + t) == t
    ensures RStripEol(data + "\r\n") == data
  {
    FirstLine(data, t);
    RStripPadded(IsEol, data, "\r\n");
  }

  lemma ChunkRead(c: Chunk, t: string)
    requires ValidChunk(c)
    ensures ReadChunks(ChunkWire(c, t)) == PrependText(SizeLine(c.size, c.ext) + (c.data + "\r\n"), ReadChunks(t))
  {
    hide RStripEol, ChunkSize;
    PayloadLine(c.data, t);
    SizeLineRead(c.size, c.ext, |c.data|, c.data + "\r\n" + t);
    ChunkTurn(SizeLine(c.size, c.ext), c.data + "\r\n" + t, |c.data|, t);
  }

  /** All chunks are read, kept as they are, and reading stops behind the last size line. */
  lemma {:induction false} ChunksRead(cs: seq<Chunk>, last: Chunk, t: string)
    requires ValidChunks(cs) && ValidLast(last)
    ensures ReadChunks(ChunksWire(cs, SizeLine(last.size, last.ext) + t))
         == Ok(ChunksWire(cs, SizeLine(last.size, last.ext)), t)
  {
    if cs == [] {
      SizeLineRead(last.size, last.ext, 0, t);
    } else {
      var c := cs[0];
      ChunksRead(cs[1..], last, t);
      ChunkRead(c, ChunksWire(cs[1..], SizeLine(last.size, last.ext) + t));
      var line := SizeLine(c.size, c.ext);
      var rest := ChunksWire(cs[1..], SizeLine(last.size, last.ext));
      assert line + (c.data + "\r\n") + rest == line + (c.data + "\r\n" + rest);
    }
  }

  lemma ChunkDataCut(c: Chunk, d: string)
    requires ValidChunk(c) && d < c.data + "\r\n"
    ensures ReadChunks(SizeLine(c.size, c.ext) + d) == Incomplete
  {
    SizeLineRead(c.size, c.ext, |c.data|, d);
    assert d == (c.data + "\r\n")[..|d|];
    assert '\n' !in d;
    assert LineEnd(d) == |d|;
  }

  /** Chunks that are cut short are incomplete, or end in a last size line with nothing after it. */
  lemma {:induction false} ChunksCut(cs: seq<Chunk>, last: Chunk, t: string, p: string, u: string)
    requires ValidChunks(cs) && ValidLast(last)
    requires p + u == ChunksWire(cs, SizeLine(last.size, last.ext) + t) && |u| > |t|
    ensures ReadChunks(p) == Incomplete || (ReadChunks(p).Ok? && ReadChunks(p).rest == "")
    decreases |cs|
  {
    hide ReadChunks, SizeLine, ReadablePayload, ValidSize;
    var s := p + u;
    assert p == s[..|p|];
    if cs == [] {
      assert p == SizeLine(last.size, last.ext)[..|p|];
      SizeLineCut(last.size, last.ext, 0, p);
    } else {
      var c := cs[0];
      var line, rest := SizeLine(c.size, c.ext), ChunksWire(cs[1..], SizeLine(last.size, last.ext) + t);
      if |p| < |line| {
        assert p == line[..|p|];
        SizeLineCut(c.size, c.ext, |c.data|, p);
      } else {
        var d := p[|line|..];
        assert p == line + d && d + u == c.data + "\r\n" + rest;
        if |d| < |c.data| + 2 {
          assert d == (d + u)[..|d|] == (c.data + "\r\n")[..|d|];
          ChunkDataCut(c, d);
        } else {
          var q := d[|c.data| + 2..];
          assert q + u == (d + u)[|c.data| + 2..] == rest;
          assert d == (d + u)[..|d|] == c.data + "\r\n" + q;
          ChunksCut(cs[1..], last, t, q, u);
          ChunkRead(c, q);
        }
      }
    }
  }

  /** Chunks as section 4.1 of RFC 7230 has them: the right size before each payload, and none empty. */
  predicate SizedChunks(cs: seq<Chunk>) {
    forall i | 0 <= i < |cs| :: cs[i].data != "" && ValidSize(cs[i].size, cs[i].ext, |cs[i].data|)
  }

  predicate AllReadable(cs: seq<Chunk>) {
    forall i | 0 <= i < |cs| :: ReadablePayload(cs[i].data)
  }

  /** A chunk with a payload that cannot be read ends the reading, whatever follows. */
  lemma UnreadableChunk(c: Chunk, t: string)
    requires c.data != "" && ValidSize(c.size, c.ext, |c.data|) && !ReadablePayload(c.data)
    ensures ReadChunks(ChunkWire(c, t)) == Incomplete
  {
    hide RStripEol, ChunkSize, ReadablePayload;
    SizeLineRead(c.size, c.ext, |c.data|, c.data + "\r\n" + t);
    UnreadablePayload(c.data, t);
  }

  /**
   The exact payloads that come past the reader, in every list of chunks: no
   line feed, and no carriage return at the end. A single other one makes the
   complete list look cut short.
   */
  lemma {:induction false} PayloadsReadableIff(cs: seq<Chunk>, last: Chunk, t: string)
    requires SizedChunks(cs) && ValidLast(last)
    ensures var o := ReadChunks(ChunksWire(cs, SizeLine(last.size, last.ext) + t));
            && (o.Ok? <==> AllReadable(cs))
            && (o.Ok? || o == Incomplete)
  {
    hide ReadChunks, SizeLine, ReadablePayload, ValidSize;
    if cs == [] {
      ChunksRead(cs, last, t);
    } else {
      var c := cs[0];
      var rest := ChunksWire(cs[1..], SizeLine(last.size, last.ext) + t);
      PayloadsReadableIff(cs[1..], last, t);
      assert forall i | 0 < i < |cs| :: cs[i] == cs[1..][i - 1];
      assert forall i | 0 <= i < |cs[1..]| :: cs[1..][i] == cs[i + 1];
      if ReadablePayload(c.data) {
        ChunkRead(c, rest);
      } else {
        UnreadableChunk(c, rest);
      }
    }
  }

  lemma UnreadablePayload(data: string, t: string)
    requires data != "" && !ReadablePayload(data)
    ensures |RStripEol(Line(data + "\r\n" + t))| < |data|
  {
    var s := data + "\r\n" + t;
    if '\n' in data {
      var i :| 0 <= i < |data| && data[i] == '\n';
      assert s[i] == '\n';
      assert LineEnd(s) <= i + 1;
      var line := Line(s);
      assert EndsLf(line);
    } else {
      FirstLine(data, t);
      var line := data + "\r\n";
      assert IsEol(line[|data| - 1]) && IsEol(line[|data|]) && IsEol(line[|data| + 1]);
    }
  }

  /** So does a part of such a payload. */
  lemma UnreadablePart(c: Chunk, t: string, d: string)
    requires c.data != "" && ValidSize(c.size, c.ext, |c.data|) && !ReadablePayload(c.data)
    requires d <= c.data + "\r\n" + t
    ensures ReadChunks(SizeLine(c.size, c.ext) + d) == Incomplete
  {
    hide RStripEol, ChunkSize, ReadablePayload;
    SizeLineRead(c.size, c.ext, |c.data|, d);
    PartOfLine(c.data + "\r\n" + t, d);
    UnreadablePayload(c.data, t);
  }

  /** The first line of a part of a text is that of the text, or not complete. */
  lemma PartOfLine(s: string, d: string)
    requires d <= s
    ensures Line(d) == Line(s) || !EndsLf(Line(d))
  {
    if EndsLf(Line(d)) {
      assert forall i | 0 <= i < |d| :: d[i] == s[i];
      assert LineEnd(d) == LineEnd(s);
    }
  }

  /** No part of a list with such a chunk is more than a size line with nothing after it. */
  lemma {:induction false} UnreadableCut(cs: seq<Chunk>, t: string, p: string)
    requires SizedChunks(cs) && !AllReadable(cs) && p <= ChunksWire(cs, t)
    ensures ReadChunks(p) == Incomplete || (ReadChunks(p).Ok? && ReadChunks(p).rest == "")
    decreases |cs|
  {
    hide ReadChunks, SizeLine, ReadablePayload, ValidSize;
    if cs == [] {
    } else {
      var c := cs[0];
      var line, rest := SizeLine(c.size, c.ext), ChunksWire(cs[1..], t);
      var s := line + (c.data + "\r\n" + rest);
      assert p == s[..|p|];
      if |p| < |line| {
        assert p == line[..|p|];
        SizeLineCut(c.size, c.ext, |c.data|, p);
      } else {
        var d := p[|line|..];
        assert p == line + d && d == (c.data + "\r\n" + rest)[..|d|];
        if !ReadablePayload(c.data) {
          UnreadablePart(c, rest, d);
        } else if |d| < |c.data| + 2 {
          assert d == (c.data + "\r\n")[..|d|];
          ChunkDataCut(c, d);
        } else {
          var q := d[|c.data| + 2..];
          assert d == c.data + "\r\n" + q && q == rest[..|q|];
          assert !AllReadable(cs[1..]) by { assert forall i | 0 < i < |cs| :: cs[i] == cs[1..][i - 1]; }
          UnreadableCut(cs[1..], t, q);
          ChunkRead(c, q);
        }
      }
    }
  }

  // ------------------------------------------------------------ with what ends the body

  lemma {:induction false} ChunksEnd(cs: seq<Chunk>, last: Chunk)
    ensures var s := ChunksWire(cs, SizeLine(last.size, last.ext));
            |s| >= 2 && s[|s| - 2] == '\r' && EndsLf(s)
  {
    if cs == [] {
    } else {
      ChunksEnd(cs[1..], last);
    }
  }

  lemma ThreeChars(a: string, end: string)
    requires EndsLf(a) && |a| >= 2
    ensures end == "\r\n" ==> CountLf(LastChars(a + end, 3)) == 2
    ensures end == "\r" && a[|a| - 2] == '\r' ==> CountLf(LastChars(a + end, 3)) == 1
  {
    if end == "\r\n" {
      assert LastChars(a + end, 3) == "\n\r\n";
      assert CountLf("\r\n") == 1;
    } else if end == "\r" {
      assert LastChars(a + end, 3) == [a[|a| - 2], '\n', '\r'];
      assert CountLf("\n\r") == 1;
    }
  }

  /** The line end of a body without trailers. */
  lemma FinishWithoutTrailer(text: string, t: string)
    requires EndsLf(text) && |text| >= 2
    ensures FinishChunked(text, "\r\n" + t) == Ok(Body(text + "\r\n", []), t)
    ensures FinishChunked(text, "") == Incomplete
    ensures text[|text| - 2] == '\r' ==> FinishChunked(text, "\r") == Incomplete
  {
    ThreeChars(text, "\r\n");
    ThreeChars(text, "\r");
    var rest := "\r\n" + t;
    assert rest[..2] == "\r\n" && rest[2..] == t;
    assert "\r"[..1] == "\r";
  }

  /** A body with trailers goes on in the trailer section. */
  lemma FinishWithTrailer(text: string, rest: string)
    requires rest != "" && !IsSpace(rest[0])
    ensures ParseFields(rest, true, false) == Incomplete ==> FinishChunked(text, rest) == Incomplete
    ensures ParseFields(rest, true, false).Ok? ==>
              FinishChunked(text, rest)
              == Ok(Body(text, ParseFields(rest, true, false).value), ParseFields(rest, true, false).rest)
  {
    hide ParseFields, RStripEol;
    NotOnlyEol(rest[..if |rest| < 2 then |rest| else 2]);
  }

  /** Every well-formed chunked body is read exactly, whatever follows it. */
  lemma ChunkedBodyRead(b: WireBody, t: string)
    requires b.Chunks? && ValidChunks(b.chunks) && ValidLast(b.last) && ValidFields(b.trailer, false)
    ensures ReadChunkedBody(BodyWire(b, t)) == Ok(BodyMeaning(b), t)
  {
    hide FinishChunked, ParseFields, ReadChunks;
    var line := SizeLine(b.last.size, b.last.ext);
    var rest := SectionWire(b.trailer, t);
    ChunksRead(b.chunks, b.last, rest);
    var text := ChunksWire(b.chunks, line);
    if b.trailer == [] {
      ChunksEnd(b.chunks, b.last);
      FinishWithoutTrailer(text, t);
      ChunksAppend(b.chunks, line, "\r\n");
    } else {
      TrailerStart(b.trailer, t);
      SectionRead(b.trailer, t, true, false);
      FinishWithTrailer(text, rest);
      assert line + "" == line;
    }
  }

  /**
   A legal chunked body, with any trailers and whatever follows it, is read
   exactly if all its payloads are readable, and otherwise never: no text after
   it makes it complete.
   */
  lemma ChunkedBodyReadIff(b: WireBody, t: string)
    requires b.Chunks? && SizedChunks(b.chunks) && ValidLast(b.last) && ValidFields(b.trailer, false)
    ensures ReadChunkedBody(BodyWire(b, t))
         == if AllReadable(b.chunks) then Ok(BodyMeaning(b), t) else Incomplete
  {
    hide ReadChunks, FinishChunked, ReadablePayload, ValidSize, SizeLine, SectionWire;
    if AllReadable(b.chunks) {
      assert ValidChunks(b.chunks);
      ChunkedBodyRead(b, t);
    } else {
      PayloadsReadableIff(b.chunks, b.last, SectionWire(b.trailer, t));
    }
  }

  lemma TrailerStart(fs: seq<Field>, t: string)
    requires ValidFields(fs, false) && fs != []
    ensures SectionWire(fs, t) != "" && !IsSpace(SectionWire(fs, t)[0])
  {
    FieldLineShape(fs[0], false);
  }

  lemma NotOnlyEol(end: string)
    requires end != "" && !IsSpace(end[0])
    ensures RStripEol(end) != ""
  {
  }

  /** A cut behind the last size line leaves the body incomplete. */
  lemma BodyEndCut(b: WireBody, q: string)
    requires b.Chunks? && ValidChunks(b.chunks) && ValidLast(b.last) && ValidFields(b.trailer, false)
    requires Unfolded(b.trailer) && q < SectionWire(b.trailer, "")
    ensures ReadChunkedBody(ChunksWire(b.chunks, SizeLine(b.last.size, b.last.ext) + q)) == Incomplete
  {
    hide FinishChunked, ParseFields, ReadChunks;
    var whole := SectionWire(b.trailer, "");
    var text := ChunksWire(b.chunks, SizeLine(b.last.size, b.last.ext));
    ChunksRead(b.chunks, b.last, q);
    ChunksEnd(b.chunks, b.last);
    FinishWithoutTrailer(text, "");
    if q != "" {
      if b.trailer == [] {
        assert q == "\r";
      } else {
        var u := whole[|q|..];
        assert whole == q + u && q[0] == whole[0];
        TrailerStart(b.trailer, "");
        UnfoldedIsFoldFree(b.trailer);
        SectionRead(b.trailer, "", true, false);
        TrailerCut(q, u);
        FinishWithTrailer(text, q);
      }
    }
  }

  /** A chunked body whose trailer is not folded is incomplete wherever it is cut. */
  lemma ChunkedBodyCut(b: WireBody, p: string, u: string)
    requires b.Chunks? && ValidChunks(b.chunks) && ValidLast(b.last) && ValidFields(b.trailer, false)
    requires Unfolded(b.trailer)
    requires p + u == BodyWire(b, "") && u != ""
    ensures ReadChunkedBody(p) == Incomplete
  {
    var line := SizeLine(b.last.size, b.last.ext);
    var tail := SectionWire(b.trailer, "");
    if |u| > |tail| {
      ChunksCut(b.chunks, b.last, tail, p, u);
    } else {
      var q := tail[..|tail| - |u|];
      var u' := tail[|tail| - |u|..];
      assert tail == q + u';
      assert line + tail == line + q + u';
      ChunksAppend(b.chunks, line + q, u');
      var w := BodyWire(b, "");
      assert w[..|w| - |u|] == p && w[..|w| - |u|] == ChunksWire(b.chunks, line + q);
      BodyEndCut(b, q);
    }
  }

  /** A folded trailer is accepted when it is cut right after a continuation line. */
  lemma FoldedTrailerCut(b: WireBody)
    requires b.Chunks? && ValidChunks(b.chunks) && ValidLast(b.last) && ValidFields(b.trailer, false)
    requires !Unfolded(b.trailer)
    ensures var p := ChunksWire(b.chunks, SizeLine(b.last.size, b.last.ext) + CutAfterFold(b.trailer));
            p < BodyWire(b, "") && ReadChunkedBody(p).Ok?
  {
    hide ReadChunks, FinishChunked, ParseFields, SizeLine, CutAfterFold, SectionWire;
    hide ValidChunks, ValidLast, ValidFields;
    var line := SizeLine(b.last.size, b.last.ext);
    var q := CutAfterFold(b.trailer);
    var tail := SectionWire(b.trailer, "");
    CutAfterFoldIsPrefix(b.trailer);
    CutAfterFoldAccepted(b.trailer);
    var u := tail[|q|..];
    assert tail == q + u;
    assert line + tail == line + q + u;
    ChunksAppend(b.chunks, line + q, u);
    ChunksRead(b.chunks, b.last, q);
    TrailerStart(b.trailer, "");
    assert q != "" && q[0] == tail[0];
    FinishWithTrailer(ChunksWire(b.chunks, line), q);
  }
}
