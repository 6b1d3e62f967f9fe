/**
 One server connection: its read loop, the batching of responses, and its
 write loop. The state and what each turn of a loop does to it are values and
 functions; the class carries the turns out.
 */
module Server {
  import opened Octets
  import opened Message
  import opened Parser
  import opened Sequences

  /** Only then do lengths in characters and lengths in bytes agree. */
  predicate Ascii(b: Bytes) {
    forall i | 0 <= i < |b| :: b[i] < 128
  }

  /** `decode("utf-8")` of ASCII bytes */
  function Decode(b: Bytes): (s: string)
    requires Ascii(b)
    ensures |s| == |b|
    ensures forall i | 0 <= i < |b| :: s[i] as int == b[i]
  {
    seq(|b|, i requires 0 <= i < |b| => b[i] as char)
  }

  /**
   The server's settings. `respond(n)` is the response in force when the n-th
   request is received.
   */
  datatype Config = Config(
    pipelined: nat, keepAlive: nat, segmentSize: nat,
    dropOnRequest: bool, hangOn: nat, respond: nat -> Bytes)

  datatype Item = Batch(data: Bytes, count: nat) | Stop

  /** `produced` lists the responses made so far; nothing depends on it. */
  datatype Conn = Conn(
    buffer: string, requests: seq<Request>,
    pending: seq<Bytes>, queue: seq<Item>, written: Bytes, done: nat,
    open: bool, reading: bool, writing: bool, produced: seq<Bytes>)

  const FRESH := Conn("", [], [], [], [], 0, true, true, true, [])

  // --------------------------------------------------------------------- turns

  function Flush(c: Conn): Conn {
    c.(queue := c.queue + [Batch(Concat(c.pending), |c.pending|)], pending := [])
  }

  function Close(c: Conn): Conn {
    if c.open then c.(open := false, queue := c.queue + [Stop]) else c
  }

  function AddResponse(c: Conn, response: Bytes): Conn {
    c.(pending := c.pending + [response], produced := c.produced + [response])
  }

  predicate Hangs(cfg: Config, n: nat) {
    0 < cfg.hangOn <= n
  }

  /** The server stops after the n-th request. */
  predicate Stops(cfg: Config, n: nat) {
    cfg.dropOnRequest || Hangs(cfg, n)
  }

  function Queue(cfg: Config, c: Conn, response: Bytes): Conn {
    if response == [] then c
    else
      var added := AddResponse(c, response);
      if |added.pending| >= cfg.pipelined then Flush(added) else added
  }

  /** What one parsed request leads to, but for its text leaving the buffer. */
  function Answer(cfg: Config, c: Conn, request: Request): Conn {
    var n := |c.requests| + 1;
    var recorded := c.(requests := c.requests + [request]);
    if cfg.dropOnRequest then Close(recorded)
    else if Hangs(cfg, n) then Close(Flush(recorded))
    else Queue(cfg, recorded, cfg.respond(n))
  }

  /** The inner loop over the buffer. */
  function Serve(cfg: Config, c: Conn): Conn
    decreases |c.buffer|
  {
    if c.buffer == "" then c
    else
      match ParseRequest(c.buffer)
      case Ok(request, rest) =>
        var answered := Answer(cfg, c, request);
        if Stops(cfg, |answered.requests|) then answered else Serve(cfg, answered.(buffer := rest))
      case Crash => c.(reading := false)
      case _ => c
  }

  lemma NothingServed(cfg: Config, c: Conn)
    ensures c.buffer == "" ==> Serve(cfg, c) == c
  {
  }

  /** One turn of the inner loop. */
  lemma ServeTurn(cfg: Config, c: Conn)
    requires c.buffer != ""
    ensures var o := ParseRequest(c.buffer);
            && (o == Incomplete || o == ParseErr ==> Serve(cfg, c) == c)
            && (o == Crash ==> Serve(cfg, c) == c.(reading := false))
            && (o.Ok? ==>
                  var answered := Answer(cfg, c, o.value);
                  Serve(cfg, c)
                  == if Stops(cfg, |answered.requests|) then answered else Serve(cfg, answered.(buffer := o.rest)))
  {
    hide Answer, ParseRequest, Stops;
  }

  /** The read loop gets data; no data is the end of the stream. */
  function Received(cfg: Config, c: Conn, data: string): Conn {
    if !c.reading then c
    else if data == "" then Close(c).(reading := false)
    else
      var served := Serve(cfg, c.(buffer := c.buffer + data));
      served.(reading := served.reading && served.open)
  }

  /** The write loop takes the next item off the queue. */
  function WriteNext(cfg: Config, c: Conn): Conn {
    if !c.writing || c.queue == [] then c
    else
      var rest := c.(queue := c.queue[1..]);
      match c.queue[0]
      case Stop => rest.(writing := false)
      case Batch(data, count) =>
        var sent := rest.(written := c.written + data, done := c.done + count);
        var closed := if cfg.keepAlive > 0 && sent.done >= cfg.keepAlive then Close(sent) else sent;
        closed.(writing := closed.open)
  }

  lemma SegmentAdded(segments: seq<Bytes>, data: Bytes, from: nat, to: nat)
    requires from <= to <= |data| && Concat(segments) == data[..from]
    ensures data[..from] + data[from..to] == data[..to] && Concat(segments + [data[from..to]]) == data[..to]
  {
    hide Concat;
    var more := segments + [data[from..to]];
    ConcatSnoc(more);
    assert more[..|segments|] == segments;
  }

  // -------------------------------------------------------------------- the object

  class ServerConnection {
    const cfg: Config
    var reqBuffer: Bytes
    var requests: seq<Request>
    var curResponsesList: seq<Bytes>
    var curPipelined: nat
    var queue: seq<Item>
    var writer: Bytes
    var responsesDone: nat
    var readwrite: bool
    var readTask: bool
    var writeTask: bool
    ghost var produced: seq<Bytes>

    ghost predicate Valid()
      reads this
    {
      Ascii(reqBuffer) && curPipelined == |curResponsesList|
    }

    ghost function View(): Conn
      requires Valid()
      reads this
    {
      Conn(Decode(reqBuffer), requests, curResponsesList, queue, writer, responsesDone,
           readwrite, readTask, writeTask, produced)
    }

    /** With `send_after_conn_established` the first response goes out before any request. */
    constructor (cfg: Config, greeting: Bytes, sendFirst: bool)
      ensures Valid() && this.cfg == cfg
      ensures View() == if sendFirst then Flush(AddResponse(FRESH, greeting)) else FRESH
    {
      this.cfg := cfg;
      reqBuffer, requests, curResponsesList, curPipelined := [], [], [], 0;
      queue, writer, responsesDone := [], [], 0;
      readwrite, readTask, writeTask, produced := true, true, true, [];
      new;
      if sendFirst {
        AddResponseToSendingBuffer(greeting);
        FlushPending();
      }
    }

    method AddResponseToSendingBuffer(response: Bytes)
      requires Valid()
      modifies this`curResponsesList, this`curPipelined, this`produced
      ensures Valid() && View() == AddResponse(old(View()), response)
    {
      curResponsesList := curResponsesList + [response];
      curPipelined := curPipelined + 1;
      produced := produced + [response];
    }

    method FlushPending()
      requires Valid()
      modifies this`curResponsesList, this`curPipelined, this`queue
      ensures Valid() && View() == Flush(old(View()))
    {
      queue := queue + [Batch(Concat(curResponsesList), curPipelined)];
      curPipelined := 0;
      curResponsesList := [];
    }

    method CloseConnection()
      requires Valid()
      modifies this`readwrite, this`queue
      ensures Valid() && View() == Close(old(View()))
    {
      if !readwrite {
        return;
      }
      readwrite := false;
      queue := queue + [Stop];
    }

    /** `StaticDeproxyServer._receive_request` */
    method ReceiveRequest(request: Request) returns (response: Bytes, needClose: bool)
      requires Valid()
      modifies this`requests
      ensures Valid() && View() == old(View()).(requests := old(requests) + [request])
      ensures needClose == Hangs(cfg, |requests|)
      ensures response == if needClose then [] else cfg.respond(|requests|)
    {
      requests := requests + [request];
      var number := |requests|;
      if 0 < cfg.hangOn <= number {
        return [], true;
      }
      return cfg.respond(number), false;
    }

    /** The loop body after a successful parse; says whether the loop goes on. */
    method HandleRequest(request: Request) returns (goOn: bool)
      requires Valid()
      modifies this`requests, this`curResponsesList, this`curPipelined, this`queue, this`readwrite, this`produced
      ensures Valid() && View() == Answer(cfg, old(View()), request)
      ensures goOn == !Stops(cfg, |requests|)
    {
      var response, needClose := ReceiveRequest(request);
      if cfg.dropOnRequest {
        CloseConnection();
        return false;
      }
      if response != [] {
        AddResponseToSendingBuffer(response);
        if curPipelined >= cfg.pipelined {
          FlushPending();
        }
      }
      if needClose {
        FlushPending();
        CloseConnection();
        return false;
      }
      return true;
    }

    /** One turn of the loop over the buffer; says whether the loop goes on. */
    method ServeOne() returns (goOn: bool)
      requires Valid() && readTask && reqBuffer != []
      modifies this
      ensures Valid()
      ensures goOn ==> readTask && |reqBuffer| < |old(reqBuffer)| && Serve(cfg, View()) == Serve(cfg, old(View()))
      ensures !goOn ==> View() == Serve(cfg, old(View()))
    {
      hide ParseRequest, Answer, Stops, Serve, Decode;
      ghost var state := View();
      ServeTurn(cfg, state);
      var message := new HttpMessage("GET");
      var text := Decode(reqBuffer);
      var status := message.ParseRequestText(text);
      if status == IncompleteMessage || status == ParseError {
        return false;
      }
      if status == OtherError {
        readTask := false;
        return false;
      }
      var request := Request(RequestLine(message.method_, message.uri, message.version),
                             Content(message.headers, Body(message.body, message.trailer)));
      goOn := HandleRequest(request);
      if goOn {
        reqBuffer := reqBuffer[message.originalLength..];
        assert Decode(reqBuffer) == text[message.originalLength..];
        assert View() == Answer(cfg, state, request).(buffer := ParseRequest(text).rest);
      }
    }

    /** One turn of `_read_loop`: a segment arrives and the buffer is worked through. */
    method OnData(data: Bytes)
      requires Valid() && Ascii(data) && readTask
      modifies this
      ensures Valid() && View() == Received(cfg, old(View()), Decode(data))
    {
      hide Serve, Decode;
      if data == [] {
        CloseConnection();
        readTask := false;
        return;
      }
      ghost var before := View();
      reqBuffer := reqBuffer + data;
      ghost var start := View();
      assert Decode(reqBuffer) == before.buffer + Decode(data);
      var goOn := true;
      while goOn && reqBuffer != []
        invariant Valid() && (goOn ==> readTask)
        invariant Serve(cfg, start) == if goOn then Serve(cfg, View()) else View()
        decreases goOn, |reqBuffer|
      {
        goOn := ServeOne();
      }
      NothingServed(cfg, View());
      readTask := readTask && readwrite;
    }

    /** `_send_bytes_with_tcp_segmentation`: the data goes out in order, in segments of the set size. */
    method SendSegmented(data: Bytes) returns (segments: seq<Bytes>)
      requires cfg.segmentSize > 0
      modifies this`writer
      ensures writer == old(writer) + data && Concat(segments) == data
      ensures forall i | 0 <= i < |segments| :: 0 < |segments[i]| <= cfg.segmentSize
      ensures forall i | 0 <= i < |segments| - 1 :: |segments[i]| == cfg.segmentSize
    {
      hide Concat;
      segments := [];
      assert Concat(segments) == [] by { ConcatNothing<Byte>(); }
      var offset := 0;
      assert data[..0] == [] && writer + data[..0] == writer;
      while offset < |data|
        invariant 0 <= offset
        invariant var sent := if offset < |data| then offset else |data|;
                  writer == old(writer) + data[..sent] && Concat(segments) == data[..sent]
        invariant forall i | 0 <= i < |segments| :: 0 < |segments[i]| <= cfg.segmentSize
        invariant forall i | 0 <= i < |segments| - 1 :: |segments[i]| == cfg.segmentSize
        invariant offset < |data| && segments != [] ==> |segments[|segments| - 1]| == cfg.segmentSize
        decreases |data| - offset
      {
        var end := if offset + cfg.segmentSize < |data| then offset + cfg.segmentSize else |data|;
        var segment := data[offset..end];
        writer := writer + segment;
        SegmentAdded(segments, data, offset, end);
        assert old(writer) + data[..offset] + segment == old(writer) + (data[..offset] + segment);
        segments := segments + [segment];
        offset := offset + cfg.segmentSize;
      }
      assert data[..|data|] == data;
    }

    method SendBytes(data: Bytes)
      modifies this`writer
      ensures writer == old(writer) + data
    {
      if cfg.segmentSize > 0 {
        var segments := SendSegmented(data);
      } else {
        writer := writer + data;
      }
    }

    /** One turn of `_write_loop`, with an item in the queue. */
    method WriteTurn()
      requires Valid() && writeTask && queue != []
      modifies this
      ensures Valid() && View() == WriteNext(cfg, old(View()))
    {
      hide Ascii, Decode;
      var item := queue[0];
      queue := queue[1..];
      if item == Stop {
        writeTask := false;
        return;
      }
      SendBytes(item.data);
      responsesDone := responsesDone + item.count;
      if cfg.keepAlive > 0 && responsesDone >= cfg.keepAlive {
        CloseConnection();
      }
      writeTask := readwrite;
    }
  }
}
