/**
 A server connection over whole runs: segments arriving, items being written
 and outside flushes, in any order.
 */
module ServerRuns {
  import opened Octets
  import opened Text
  import opened Message
  import opened Grammar
  import opened ChunkedBodies
  import opened SelfDelimiting
  import opened ReadLoop
  import opened Sequences
  import opened Server

  datatype Event = Data(text: string) | Write | FlushAll

  function Step(cfg: Config, c: Conn, e: Event): Conn {
    match e
    case Data(text) => Received(cfg, c, text)
    case Write => WriteNext(cfg, c)
    case FlushAll => Flush(c)
  }

  function Run(cfg: Config, c: Conn, events: seq<Event>): Conn {
    if events == [] then c
    else Step(cfg, Run(cfg, c, events[..|events| - 1]), events[|events| - 1])
  }

  /** The segments that arrive in a run. */
  function Segments(events: seq<Event>): seq<string> {
    if events == [] then []
    else
      var before := Segments(events[..|events| - 1]);
      var last := events[|events| - 1];
      if last.Data? then before + [last.text] else before
  }

  /** A new connection, with a first response queued or not. */
  function Start(greetings: seq<Bytes>): Conn
    requires |greetings| <= 1
  {
    if greetings == [] then FRESH else Flush(AddResponse(FRESH, greetings[0]))
  }

  // ---------------------------------------------------------------- segmentation

  function RequestParser(): NthParser<Request> {
    (n, s) => ParseRequest(s)
  }

  lemma RequestParserConsumes()
    ensures Consuming(RequestParser())
  {
  }

  lemma AnswerRecords(cfg: Config, c: Conn, request: Request)
    ensures var a := Answer(cfg, c, request);
            && a.requests == c.requests + [request] && a.buffer == c.buffer && a.reading == c.reading
            && a.open == (c.open && !Stops(cfg, |a.requests|))
  {
  }

  /** The inner loop ended with a request after which the server stops. */
  predicate Stopped(cfg: Config, before: Conn, after: Conn) {
    |before.requests| < |after.requests| && Stops(cfg, |after.requests|)
  }

  /** The inner loop takes messages out of the buffer, all that it can unless the server stops. */
  lemma {:induction false} ServePeels(cfg: Config, c: Conn)
    requires Consuming(RequestParser())
    ensures var peeled := Peel(RequestParser(), |c.requests|, c.buffer);
            var s := Serve(cfg, c);
            && c.requests <= s.requests <= c.requests + peeled.messages
            && (forall n | |c.requests| < n < |s.requests| :: !Stops(cfg, n))
            && (Stopped(cfg, c, s) ==> !s.open)
            && (!Stopped(cfg, c, s) ==>
                  && s.requests == c.requests + peeled.messages && s.buffer == peeled.left && s.open == c.open
                  && s.reading == (c.reading && (s.buffer == "" || !ParseRequest(s.buffer).Crash?)))
    decreases |c.buffer|
  {
    hide ParseRequest, Answer, Serve, Stops;
    if c.buffer == "" {
      NothingServed(cfg, c);
    } else {
      ServeTurn(cfg, c);
      var o := ParseRequest(c.buffer);
      assert RequestParser()(|c.requests|, c.buffer) == o;
      if o.Ok? {
        AnswerRecords(cfg, c, o.value);
        var answered := Answer(cfg, c, o.value);
        var rest := Peel(RequestParser(), |c.requests| + 1, o.rest);
        assert c.requests + [o.value] + rest.messages == c.requests + ([o.value] + rest.messages);
        if !Stops(cfg, |answered.requests|) {
          assert |o.rest| < |c.buffer|;
          ServePeels(cfg, answered.(buffer := o.rest));
        }
      }
    }
  }

  /**
   The connection has the requests and the rest of the text, as long as it
   reads; when it has stopped, some of the requests. Without a keep-alive limit
   it stops only after a request that makes it stop, and after the first one.
   */
  ghost predicate Tracks(cfg: Config, c: Conn, peeled: Peeled<Request>) {
    && (c.open ==> c.reading)
    && (c.reading ==> c.requests == peeled.messages && c.buffer == peeled.left)
    && c.requests <= peeled.messages
    && (cfg.keepAlive == 0 ==>
          && c.open == c.reading
          && (forall n | 0 < n < |c.requests| :: !Stops(cfg, n))
          && (c.reading <==> c.requests == [] || !Stops(cfg, |c.requests|)))
  }

  /** The texts and meanings of a sequence of requests. */
  function TextsOf(ws: seq<WireRequest>): (ts: seq<string>)
    ensures |ts| == |ws| && forall i | 0 <= i < |ws| :: ts[i] == RequestWire(ws[i], "")
  {
    seq(|ws|, i requires 0 <= i < |ws| => RequestWire(ws[i], ""))
  }

  function MeaningsOf(ws: seq<WireRequest>): (ms: seq<Request>)
    ensures |ms| == |ws| && forall i | 0 <= i < |ws| :: ms[i] == RequestMeaning(ws[i])
  {
    seq(|ws|, i requires 0 <= i < |ws| => RequestMeaning(ws[i]))
  }

  predicate AllValid(ws: seq<WireRequest>) {
    forall i | 0 <= i < |ws| :: ValidRequest(ws[i])
  }

  predicate SafeBody(w: WireRequest) {
    CutSafeBody(HeadersOf(w.fields), w.body)
  }

  /** Well-formed requests, with or without empty lines before them, whose bodies are safe to cut. */
  predicate Sendable(ws: seq<WireRequest>) {
    AllValid(ws) && forall i | 0 <= i < |ws| :: SafeBody(ws[i])
  }

  lemma RequestReads(w: WireRequest, n: nat)
    requires ValidRequest(w)
    ensures Reads(RequestParser(), n, RequestWire(w, ""), RequestMeaning(w))
  {
    hide ParseRequest, RequestWire, RequestMeaning, ValidRequest;
    var text := RequestWire(w, "");
    RequestNotEmpty(w);
    forall t ensures RequestParser()(n, text + t) == Ok(RequestMeaning(w), t) {
      RequestRead(w, t);
    }
  }

  /** No part of a request is taken for one exactly when its body is safe to cut. */
  lemma RequestPartIff(w: WireRequest, n: nat)
    requires ValidRequest(w)
    ensures NoPartRead(RequestParser(), n, RequestWire(w, "")) <==> SafeBody(w)
  {
    hide ParseRequest, RequestWire, ValidRequest, CutSafeBody;
    var text := RequestWire(w, "");
    if SafeBody(w) {
      SafeNeverShortRequest(w);
      forall k | 0 < k < |text| ensures !RequestParser()(n, text[..k]).Ok? {
        assert text[..k] + text[k..] == text;
        RequestPartRefused(w, text[..k], text[k..]);
      }
    } else {
      var p := UnsafeRequestCut(w);
      assert text[..|p|] == p;
      assert RequestParser()(n, text[..|p|]).Ok?;
    }
  }

  lemma RequestNotEmpty(w: WireRequest)
    ensures RequestWire(w, "") != ""
  {
    hide ContentWire, RequestLineText;
    EmptyLinesLonger(w.emptyLines, RequestLineText(w.line, w.short) + "\r\n" + ContentWire(w.fields, w.body, ""));
  }

  lemma RequestsFramed(ws: seq<WireRequest>)
    requires Sendable(ws)
    ensures AllFramed(RequestParser(), 0, TextsOf(ws), MeaningsOf(ws))
  {
    hide Reads, NoPartRead, ValidRequest, SafeBody;
    forall i | 0 <= i < |ws| ensures Framed(RequestParser(), 0 + i, TextsOf(ws)[i], MeaningsOf(ws)[i]) {
      RequestReads(ws[i], i);
      RequestPartIff(ws[i], i);
    }
  }

  /** A segment of a well-formed stream arrives. */
  lemma DataTracks(cfg: Config, c: Conn, peeled: Peeled<Request>, text: string)
    requires Consuming(RequestParser()) && Tracks(cfg, c, peeled) && text != ""
    requires var after := Receive(RequestParser(), peeled, text);
             after.left == "" || !ParseRequest(after.left).Crash?
    ensures Tracks(cfg, Received(cfg, c, text), Receive(RequestParser(), peeled, text))
  {
    hide ParseRequest, Peel, Serve, Stops;
    ServePeels(cfg, c.(buffer := c.buffer + text));
  }

  /** The write loop touches neither requests nor buffer, and closes only at a keep-alive limit. */
  lemma WriteTracks(cfg: Config, c: Conn, peeled: Peeled<Request>)
    requires Tracks(cfg, c, peeled)
    ensures Tracks(cfg, WriteNext(cfg, c), peeled)
  {
  }

  /** A text of which no part is served, and on no part of which the parser fails. */
  predicate NeverServed(tail: string) {
    forall k | 0 < k <= |tail| :: var o := ParseRequest(tail[..k]); o == Incomplete || o == ParseErr
  }

  lemma NeverServedStuck(tail: string, n: nat)
    requires NeverServed(tail)
    ensures Stuck(RequestParser(), n, tail)
  {
    hide ParseRequest;
  }

  /** The text that is left is never one the parser fails on. */
  lemma LeftIsRefused(ws: seq<WireRequest>, tail: string, segments: seq<string>)
    requires Sendable(ws) && NeverServed(tail) && Consuming(RequestParser())
    requires Concat(segments) <= Concat(TextsOf(ws)) + tail
    ensures var left := ReceiveAll(RequestParser(), segments).left;
            left == "" || !ParseRequest(left).Crash?
  {
    hide ParseRequest, ReceiveAll, Framed, Whole, ValidRequest, SafeBody, Concat;
    var texts, bytes := TextsOf(ws), Concat(segments);
    RequestsFramed(ws);
    NeverServedStuck(tail, |texts|);
    SegmentationInvariance(RequestParser(), texts, MeaningsOf(ws), tail, segments);
    LeftIsPart(texts, tail, bytes);
    var k := Whole(texts, |bytes|);
    var left := bytes[|Concat(texts[..k])|..];
    if left != "" {
      if k == |texts| {
        assert left == tail[..|left|];
      } else {
        assert left + texts[k][|left|..] == RequestWire(ws[k], "");
        RefusedPart(ws[k], left, texts[k][|left|..]);
      }
    }
  }

  lemma RefusedPart(w: WireRequest, p: string, u: string)
    requires ValidRequest(w) && SafeBody(w) && p + u == RequestWire(w, "") && p != "" && u != ""
    ensures !ParseRequest(p).Crash?
  {
    hide ParseRequest, NeverShortRequest, RequestWire;
    SafeNeverShortRequest(w);
    RequestPartRefused(w, p, u);
  }

  lemma {:induction false} RunTracks(
    cfg: Config, greetings: seq<Bytes>, ws: seq<WireRequest>, tail: string, events: seq<Event>)
    requires |greetings| <= 1 && Sendable(ws) && NeverServed(tail) && Consuming(RequestParser())
    requires Data("") !in events && Concat(Segments(events)) <= Concat(TextsOf(ws)) + tail
    ensures Tracks(cfg, Run(cfg, Start(greetings), events), ReceiveAll(RequestParser(), Segments(events)))
  {
    hide ParseRequest, Received, Sendable, Concat, ValidRequest, Receive, WriteNext, Tracks;
    if events == [] {
      StartTracks(cfg, greetings);
    } else {
      var before := events[..|events| - 1];
      var last := events[|events| - 1];
      var segments := Segments(events);
      if last.Data? {
        assert segments[..|segments| - 1] == Segments(before) && last == Data(segments[|segments| - 1]);
        ConcatSnoc(segments);
        LeftIsRefused(ws, tail, segments);
      }
      assert Concat(Segments(before)) <= Concat(segments);
      RunTracks(cfg, greetings, ws, tail, before);
      var c, peeled := Run(cfg, Start(greetings), before), ReceiveAll(RequestParser(), Segments(before));
      match last {
        case Data(text) =>
          assert text != "";
          DataTracks(cfg, c, peeled, text);
        case Write => WriteTracks(cfg, c, peeled);
        case FlushAll => FlushTracks(cfg, c, peeled);
      }
    }
  }

  lemma FlushTracks(cfg: Config, c: Conn, peeled: Peeled<Request>)
    requires Tracks(cfg, c, peeled)
    ensures Tracks(cfg, Flush(c), peeled)
  {
  }

  lemma StartTracks(cfg: Config, greetings: seq<Bytes>)
    requires |greetings| <= 1
    ensures Tracks(cfg, Start(greetings), Peeled([], ""))
  {
  }

  /** The number of the first request after which the server stops, if there is one. */
  function StopsAt(cfg: Config): Option<nat> {
    if cfg.dropOnRequest then Some(1) else if cfg.hangOn > 0 then Some(cfg.hangOn) else None
  }

  /** The requests recorded and what is left in the buffer, given the bytes received. */
  predicate Recorded(cfg: Config, end: Conn, ws: seq<WireRequest>, bytes: string) {
    var k := Whole(TextsOf(ws), |bytes|);
    var taken := |Concat(TextsOf(ws)[..k])|;
    && taken <= |bytes| && (k < |ws| ==> |bytes| - taken < |RequestWire(ws[k], "")|)
    && (end.open ==> end.reading)
    && (end.reading ==> end.requests == MeaningsOf(ws)[..k] && end.buffer == bytes[taken..])
    && end.requests <= MeaningsOf(ws)[..k]
    && (cfg.keepAlive == 0 ==> |end.requests| == UpTo(k, StopsAt(cfg)))
  }

  lemma RunRecords(cfg: Config, greetings: seq<Bytes>, ws: seq<WireRequest>, tail: string, events: seq<Event>)
    requires |greetings| <= 1 && Sendable(ws) && NeverServed(tail)
    requires Data("") !in events && Concat(Segments(events)) <= Concat(TextsOf(ws)) + tail
    ensures Recorded(cfg, Run(cfg, Start(greetings), events), ws, Concat(Segments(events)))
  {
    hide ParseRequest, Run, Sendable, ReceiveAll, Concat, ValidRequest, Whole, NeverServed;
    RequestParserConsumes();
    RunTracks(cfg, greetings, ws, tail, events);
    RequestsFramed(ws);
    NeverServedStuck(tail, |ws|);
    SegmentationInvariance(RequestParser(), TextsOf(ws), MeaningsOf(ws), tail, Segments(events));
    WholeFits(TextsOf(ws), |Concat(Segments(events))|);
    if cfg.keepAlive == 0 {
      CountsUpTo(cfg, Run(cfg, Start(greetings), events), ReceiveAll(RequestParser(), Segments(events)));
    }
  }

  /**
   However a stream of well-formed requests is cut into segments, whatever is
   written or flushed in between, and whatever the server's settings: as long
   as the connection reads, and so as long as it is open, the requests recorded
   are exactly those wholly received so far, in order, and the buffer holds
   exactly the part of the next one that has arrived. When it has stopped, they
   are the first of those; without a keep-alive limit, exactly those up to the
   request that is to be dropped or left hanging.
   */
  lemma ServerSegmentation(cfg: Config, greetings: seq<Bytes>, ws: seq<WireRequest>, events: seq<Event>)
    requires |greetings| <= 1 && Sendable(ws)
    requires Data("") !in events && Concat(Segments(events)) <= Concat(TextsOf(ws))
    ensures Recorded(cfg, Run(cfg, Start(greetings), events), ws, Concat(Segments(events)))
  {
    hide Run, Recorded, Concat, Sendable;
    assert Concat(TextsOf(ws)) + "" == Concat(TextsOf(ws));
    RunRecords(cfg, greetings, ws, "", events);
  }

  /**
   A legal chunked request with one payload that cannot be read stalls the
   connection for good: in every run, whatever arrives after it, neither it nor
   anything behind it is ever recorded, and while the connection reads all of
   that stays in the buffer.
   */
  lemma ServerStalls(
    cfg: Config, greetings: seq<Bytes>, ws: seq<WireRequest>, w: WireRequest, more: string, events: seq<Event>)
    requires |greetings| <= 1 && Sendable(ws) && LegalChunked(w) && !AllReadable(w.body.chunks)
    requires Data("") !in events && Concat(Segments(events)) <= Concat(TextsOf(ws)) + (RequestWire(w, "") + more)
    ensures var end := Run(cfg, Start(greetings), events);
            Recorded(cfg, end, ws, Concat(Segments(events))) && end.requests <= MeaningsOf(ws)
  {
    hide Run, Concat, Sendable, LegalChunked, AllReadable, RequestWire, ParseRequest, Whole;
    var tail := RequestWire(w, "") + more;
    forall k | 0 < k <= |tail| ensures var o := ParseRequest(tail[..k]); o == Incomplete || o == ParseErr {
      UnreadableRefused(w, more, tail[..k]);
    }
    RunRecords(cfg, greetings, ws, tail, events);
  }

  /** The requests recorded are exactly those wholly received. */
  predicate RecordsWhole(cfg: Config, ws: seq<WireRequest>, events: seq<Event>) {
    Run(cfg, Start([]), events).requests == MeaningsOf(ws)[..Whole(TextsOf(ws), |Concat(Segments(events))|)]
  }

  /** The events bring non-empty segments of the stream of requests. */
  predicate Brings(ws: seq<WireRequest>, events: seq<Event>) {
    Data("") !in events && Concat(Segments(events)) <= Concat(TextsOf(ws))
  }

  /**
   For a server that does not stop: of any well-formed requests, exactly those
   wholly received are recorded in every run if and only if their bodies are
   safe to cut.
   */
  lemma ServerSegmentationIff(cfg: Config, ws: seq<WireRequest>)
    requires AllValid(ws) && StopsAt(cfg) == None && cfg.keepAlive == 0
    ensures (forall events | Brings(ws, events) :: RecordsWhole(cfg, ws, events)) <==> Sendable(ws)
  {
    hide Run, Concat, ValidRequest, SafeBody, Whole;
    if Sendable(ws) {
      forall events | Brings(ws, events) ensures RecordsWhole(cfg, ws, events) {
        ServerSegmentation(cfg, [], ws, events);
      }
    } else {
      var i :| 0 <= i < |ws| && !SafeBody(ws[i]);
      var segment := RequestMisread(cfg, ws, i);
      assert Brings(ws, [Data(segment)]) && !RecordsWhole(cfg, ws, [Data(segment)]);
    }
  }

  lemma RequestMisread(cfg: Config, ws: seq<WireRequest>, i: nat) returns (segment: string)
    requires AllValid(ws) && StopsAt(cfg) == None && cfg.keepAlive == 0
    requires i < |ws| && !SafeBody(ws[i])
    ensures Brings(ws, [Data(segment)]) && !RecordsWhole(cfg, ws, [Data(segment)])
  {
    hide Peel, Concat, ValidRequest, SafeBody, Whole, NoPartRead, Reads, Serve, ParseRequest;
    RequestParserConsumes();
    var texts, ms := TextsOf(ws), MeaningsOf(ws);
    assert AllRead(RequestParser(), 0, texts, ms) by {
      forall j | 0 <= j < |ws| ensures Reads(RequestParser(), 0 + j, texts[j], ms[j]) {
        RequestReads(ws[j], j);
      }
    }
    RequestPartIff(ws[i], i);
    segment := PartMisread(RequestParser(), texts, ms, i);
    OneData(segment);
    ServeFresh(cfg, segment);
  }

  lemma OneData(segment: string)
    ensures Concat(Segments([Data(segment)])) == segment
  {
    assert [Data(segment)][..0] == [];
    ConcatOne(segment);
  }

  /** A server that does not stop records all that can be taken out of its first segment. */
  lemma ServeFresh(cfg: Config, segment: string)
    requires StopsAt(cfg) == None && segment != "" && Consuming(RequestParser())
    ensures Run(cfg, Start([]), [Data(segment)]).requests == Peel(RequestParser(), 0, segment).messages
  {
    hide Peel, Serve, ParseRequest;
    assert [Data(segment)][..0] == [];
    ServePeels(cfg, FRESH.(buffer := segment));
    assert "" + segment == segment;
    var messages := Peel(RequestParser(), 0, segment).messages;
    assert [] + messages == messages;
  }

  function UpTo(k: nat, limit: Option<nat>): nat {
    if limit.Some? && limit.value < k then limit.value else k
  }

  lemma CountsUpTo(cfg: Config, c: Conn, peeled: Peeled<Request>)
    requires Tracks(cfg, c, peeled) && cfg.keepAlive == 0
    ensures |c.requests| == UpTo(|peeled.messages|, StopsAt(cfg))
  {
    var n := |c.requests|;
    if StopsAt(cfg).Some? && 0 < StopsAt(cfg).value < n {
      assert Stops(cfg, StopsAt(cfg).value);
    }
  }

  // -------------------------------------------------------------------- pipelining

  /** The most responses a batch may hold. */
  function Most(cfg: Config): nat {
    if cfg.pipelined > 1 then cfg.pipelined else 1
  }

  /** The responses to the first n requests, in request order. */
  function Made(cfg: Config, n: nat): seq<Bytes> {
    if n == 0 then []
    else Made(cfg, n - 1) + if Stops(cfg, n) || cfg.respond(n) == [] then [] else [cfg.respond(n)]
  }

  /** The queued batches, and after them the pending responses, are `rest` in order. */
  predicate Aligned(cfg: Config, queue: seq<Item>, rest: seq<Bytes>, pending: seq<Bytes>) {
    if queue == [] then rest == pending
    else
      match queue[0]
      case Stop => Aligned(cfg, queue[1..], rest, pending)
      case Batch(data, n) =>
        && n <= |rest| && n <= Most(cfg) && data == Concat(rest[..n])
        && Aligned(cfg, queue[1..], rest[n..], pending)
  }

  /** What is written, queued and pending is what was produced, in order; the keep-alive limit holds. */
  predicate Core(cfg: Config, c: Conn) {
    && c.done <= |c.produced|
    && c.written == Concat(c.produced[..c.done])
    && Aligned(cfg, c.queue, c.produced[c.done..], c.pending)
    && (c.writing ==> c.open || Stop in c.queue)
    && (cfg.keepAlive > 0 ==> c.done < cfg.keepAlive + Most(cfg) && (c.writing ==> c.done < cfg.keepAlive))
  }

  /** What every turn of every loop keeps; `first` is a response sent before any request. */
  predicate Inv(cfg: Config, first: seq<Bytes>, c: Conn) {
    && Core(cfg, c) && |c.pending| < Most(cfg)
    && c.produced == first + Made(cfg, |c.requests|)
  }

  lemma {:induction false} AlignedAdd(cfg: Config, queue: seq<Item>, rest: seq<Bytes>, pending: seq<Bytes>, r: Bytes)
    requires Aligned(cfg, queue, rest, pending)
    ensures Aligned(cfg, queue, rest + [r], pending + [r])
    decreases |queue|
  {
    if queue == [] {
    } else {
      match queue[0] {
        case Stop => AlignedAdd(cfg, queue[1..], rest, pending, r);
        case Batch(_, n) =>
          AlignedAdd(cfg, queue[1..], rest[n..], pending, r);
          assert (rest + [r])[n..] == rest[n..] + [r] && (rest + [r])[..n] == rest[..n];
      }
    }
  }

  lemma {:induction false} AlignedFlush(cfg: Config, queue: seq<Item>, rest: seq<Bytes>, pending: seq<Bytes>)
    requires Aligned(cfg, queue, rest, pending) && |pending| <= Most(cfg)
    ensures Aligned(cfg, queue + [Batch(Concat(pending), |pending|)], rest, [])
    decreases |queue|
  {
    var more := queue + [Batch(Concat(pending), |pending|)];
    if queue == [] {
      assert more[1..] == [] && rest[..|pending|] == rest && rest[|pending|..] == [];
    } else {
      assert more[1..] == queue[1..] + [Batch(Concat(pending), |pending|)];
      match queue[0] {
        case Stop => AlignedFlush(cfg, queue[1..], rest, pending);
        case Batch(_, n) => AlignedFlush(cfg, queue[1..], rest[n..], pending);
      }
    }
  }

  lemma {:induction false} AlignedStop(cfg: Config, queue: seq<Item>, rest: seq<Bytes>, pending: seq<Bytes>)
    requires Aligned(cfg, queue, rest, pending)
    ensures Aligned(cfg, queue + [Stop], rest, pending)
    decreases |queue|
  {
    if queue == [] {
      assert (queue + [Stop])[1..] == [];
    } else {
      assert (queue + [Stop])[1..] == queue[1..] + [Stop];
      match queue[0] {
        case Stop => AlignedStop(cfg, queue[1..], rest, pending);
        case Batch(_, n) => AlignedStop(cfg, queue[1..], rest[n..], pending);
      }
    }
  }

  lemma SameCore(cfg: Config, c: Conn, d: Conn)
    requires Core(cfg, c) && d == c.(requests := d.requests, buffer := d.buffer, reading := d.reading)
    ensures Core(cfg, d)
  {
  }

  lemma FlushKeepsCore(cfg: Config, c: Conn)
    requires Core(cfg, c) && |c.pending| <= Most(cfg)
    ensures Core(cfg, Flush(c))
  {
    AlignedFlush(cfg, c.queue, c.produced[c.done..], c.pending);
  }

  lemma CloseKeepsCore(cfg: Config, c: Conn)
    requires Core(cfg, c)
    ensures Core(cfg, Close(c))
  {
    AlignedStop(cfg, c.queue, c.produced[c.done..], c.pending);
  }

  lemma AddKeepsCore(cfg: Config, c: Conn, r: Bytes)
    requires Core(cfg, c)
    ensures Core(cfg, AddResponse(c, r))
  {
    AlignedAdd(cfg, c.queue, c.produced[c.done..], c.pending, r);
    assert (c.produced + [r])[c.done..] == c.produced[c.done..] + [r];
    assert (c.produced + [r])[..c.done] == c.produced[..c.done];
  }

  lemma OneMoreMade(cfg: Config, first: seq<Bytes>, n: nat)
    requires n > 0
    ensures first + Made(cfg, n)
         == if Stops(cfg, n) || cfg.respond(n) == [] then first + Made(cfg, n - 1)
            else first + Made(cfg, n - 1) + [cfg.respond(n)]
  {
    assert Made(cfg, n - 1) + [] == Made(cfg, n - 1);
    assert first + (Made(cfg, n - 1) + [cfg.respond(n)]) == first + Made(cfg, n - 1) + [cfg.respond(n)];
  }

  lemma AnswerKeeps(cfg: Config, first: seq<Bytes>, c: Conn, request: Request)
    requires Inv(cfg, first, c)
    ensures Inv(cfg, first, Answer(cfg, c, request))
  {
    hide Core, Made, Concat;
    var n := |c.requests| + 1;
    OneMoreMade(cfg, first, n);
    var recorded := c.(requests := c.requests + [request]);
    SameCore(cfg, c, recorded);
    if cfg.dropOnRequest {
      CloseKeepsCore(cfg, recorded);
    } else if Hangs(cfg, n) {
      FlushKeepsCore(cfg, recorded);
      CloseKeepsCore(cfg, Flush(recorded));
    } else if cfg.respond(n) != [] {
      AddKeepsCore(cfg, recorded, cfg.respond(n));
      FlushKeepsCore(cfg, AddResponse(recorded, cfg.respond(n)));
    }
  }

  lemma {:induction false} ServeKeeps(cfg: Config, first: seq<Bytes>, c: Conn)
    requires Inv(cfg, first, c)
    ensures Inv(cfg, first, Serve(cfg, c))
    decreases |c.buffer|
  {
    hide ParseRequest, Answer, Core, Serve;
    SameCore(cfg, c, c.(reading := false));
    if c.buffer == "" {
      NothingServed(cfg, c);
    } else {
      ServeTurn(cfg, c);
      var o := ParseRequest(c.buffer);
      if o.Ok? {
        AnswerKeeps(cfg, first, c, o.value);
        var answered := Answer(cfg, c, o.value);
        SameCore(cfg, answered, answered.(buffer := o.rest));
        if !Stops(cfg, |answered.requests|) {
          ServeKeeps(cfg, first, answered.(buffer := o.rest));
        }
      }
    }
  }

  lemma WriteKeeps(cfg: Config, first: seq<Bytes>, c: Conn)
    requires Inv(cfg, first, c)
    ensures Inv(cfg, first, WriteNext(cfg, c))
  {
    hide Made, Concat, Aligned;
    if c.writing && c.queue != [] {
      match c.queue[0] {
        case Stop => StopTaken(cfg, c);
        case Batch(data, n) =>
          BatchTaken(cfg, c, data, n);
          var sent := c.(queue := c.queue[1..], written := c.written + data, done := c.done + n);
          AlignedStop(cfg, sent.queue, sent.produced[sent.done..], sent.pending);
      }
    }
  }

  lemma StopTaken(cfg: Config, c: Conn)
    requires c.queue != [] && c.queue[0] == Stop && c.done <= |c.produced|
    requires Aligned(cfg, c.queue, c.produced[c.done..], c.pending)
    ensures Aligned(cfg, c.queue[1..], c.produced[c.done..], c.pending)
  {
  }

  /** What was at the front of the queue is the next part of what is written. */
  lemma BatchTaken(cfg: Config, c: Conn, data: Bytes, n: nat)
    requires c.queue != [] && c.queue[0] == Batch(data, n) && c.done <= |c.produced|
    requires Aligned(cfg, c.queue, c.produced[c.done..], c.pending)
    ensures n <= Most(cfg) && c.done + n <= |c.produced|
    ensures Concat(c.produced[..c.done]) + data == Concat(c.produced[..c.done + n])
    ensures Aligned(cfg, c.queue[1..], c.produced[c.done + n..], c.pending)
  {
    var rest := c.produced[c.done..];
    assert c.produced[..c.done + n] == c.produced[..c.done] + rest[..n];
    ConcatSplit(c.produced[..c.done], rest[..n]);
    assert c.produced[c.done + n..] == rest[n..];
  }

  lemma StepKeeps(cfg: Config, first: seq<Bytes>, c: Conn, e: Event)
    requires Inv(cfg, first, c)
    ensures Inv(cfg, first, Step(cfg, c, e))
  {
    hide Aligned, Concat, WriteNext, Serve;
    match e {
      case Data(text) =>
        CloseKeepsCore(cfg, c);
        ServeKeeps(cfg, first, c.(buffer := c.buffer + text));
      case Write => WriteKeeps(cfg, first, c);
      case FlushAll => FlushKeepsCore(cfg, c);
    }
  }

  /** How many responses the queued batches hold. */
  function Queued(queue: seq<Item>): nat {
    if queue == [] then 0 else (if queue[0].Batch? then queue[0].count else 0) + Queued(queue[1..])
  }

  lemma {:induction false} AlignedCounts(cfg: Config, queue: seq<Item>, rest: seq<Bytes>, pending: seq<Bytes>)
    requires Aligned(cfg, queue, rest, pending)
    ensures Queued(queue) + |pending| == |rest|
    ensures forall i | 0 <= i < |queue| && queue[i].Batch? :: queue[i].count <= Most(cfg)
    decreases |queue|
  {
    if queue == [] {
    } else {
      match queue[0] {
        case Stop => AlignedCounts(cfg, queue[1..], rest, pending);
        case Batch(_, n) => AlignedCounts(cfg, queue[1..], rest[n..], pending);
      }
      assert forall i | 1 <= i < |queue| :: queue[i] == queue[1..][i - 1];
    }
  }

  lemma {:induction false} RunKeeps(cfg: Config, first: seq<Bytes>, start: Conn, events: seq<Event>)
    requires Inv(cfg, first, start)
    ensures Inv(cfg, first, Run(cfg, start, events))
  {
    hide Inv, Step;
    if events == [] {
    } else {
      RunKeeps(cfg, first, start, events[..|events| - 1]);
      StepKeeps(cfg, first, Run(cfg, start, events[..|events| - 1]), events[|events| - 1]);
    }
  }

  lemma StartHolds(cfg: Config, greetings: seq<Bytes>)
    requires |greetings| <= 1
    ensures Inv(cfg, greetings, Start(greetings))
  {
    if greetings != [] {
      AddKeepsCore(cfg, FRESH, greetings[0]);
      FlushKeepsCore(cfg, AddResponse(FRESH, greetings[0]));
      assert greetings + [] == greetings;
    }
  }

  /**
   Responses go out whole, once and in request order: over every run the bytes
   written are the first `done` responses made; those in the queue and those
   pending account for all others; no batch holds more than max(1, pipelined);
   and with keep_alive k fewer than k + max(1, pipelined) are ever written.
   */
  lemma ResponsePipeline(cfg: Config, greetings: seq<Bytes>, events: seq<Event>)
    requires |greetings| <= 1
    ensures var end := Run(cfg, Start(greetings), events);
            && end.produced == greetings + Made(cfg, |end.requests|)
            && end.done <= |end.produced| && end.written == Concat(end.produced[..end.done])
            && end.done + Queued(end.queue) + |end.pending| == |end.produced|
            && (forall i | 0 <= i < |end.queue| && end.queue[i].Batch? :: end.queue[i].count <= Most(cfg))
            && (cfg.keepAlive > 0 ==> end.done < cfg.keepAlive + Most(cfg))
            && (cfg.keepAlive > 0 && end.done >= cfg.keepAlive ==> !end.writing)
  {
    hide Run, Concat;
    StartHolds(cfg, greetings);
    RunKeeps(cfg, greetings, Start(greetings), events);
    var end := Run(cfg, Start(greetings), events);
    AlignedCounts(cfg, end.queue, end.produced[end.done..], end.pending);
  }
}
