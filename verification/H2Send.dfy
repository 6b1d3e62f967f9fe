/**
 The HTTP/2 client's send queue. Each entry has header bytes and, possibly, a
 body that is turned into one DATA frame at a time as the flow-control window
 allows. The index of the current entry is bumped when its bytes are sent and
 pulled back when it still has a body.
 */
module H2Send {
  import opened Octets
  import opened Text

  /** One DATA frame. */
  datatype Frame = Frame(streamId: nat, payload: Bytes, endStream: bool)

  /** `ReqBodyBuffer` */
  datatype ReqBody = ReqBody(body: Option<Bytes>, streamId: nat, endStream: bool)

  /** What is queued for one request. */
  datatype Entry = Entry(head: Bytes, body: ReqBody)

  /**
   The queue. `wire` is what the socket has taken and `frames` the DATA frames
   made for each entry; both are only ever extended.
   */
  datatype Queue = Queue(buffers: seq<Bytes>, bodies: seq<ReqBody>, cur: nat, wire: Bytes, frames: seq<seq<Frame>>)

  const EMPTY := Queue([], [], 0, [], [])

  /** One call: how much the socket takes, the segment size, the largest frame and the window. */
  datatype Env = Env(accept: nat, segmentSize: nat, maxFrame: nat, window: int)

  // ----------------------------------------------------------------------- frames

  /** The 9-octet frame header of section 4.1 of RFC 9113, type DATA. */
  function FrameHeader(length: nat, endStream: bool, streamId: nat): Bytes {
    [length / 65536 % 256, length / 256 % 256, length % 256, 0, if endStream then 1 else 0,
     streamId / 16777216 % 128, streamId / 65536 % 256, streamId / 256 % 256, streamId % 256]
  }

  function FrameBytes(f: Frame): Bytes {
    FrameHeader(|f.payload|, f.endStream, f.streamId) + f.payload
  }

  function Room(env: Env): int {
    if env.maxFrame < env.window then env.maxFrame else env.window
  }

  /** There is no room, a frame is made, or the connection raises. */
  datatype Prepared = NoRoom | Made(frame: Frame) | Refused

  /** `send_data` of the connection, which raises on more data than the frame limit or the window allows. */
  function HandOver(f: Frame, env: Env): Prepared {
    if |f.payload| > env.maxFrame || |f.payload| > env.window then Refused else Made(f)
  }

  /** `__prepare_data_frames`: the next frame of a body. */
  function PrepareFrame(body: ReqBody, env: Env): Prepared
    requires body.body.Some?
  {
    var data := body.body.value;
    var size := Room(env);
    if size == 0 then NoRoom
    else if |data| > size then HandOver(Frame(body.streamId, SliceTo(data, size), false), env)
    else HandOver(Frame(body.streamId, data, body.endStream), env)
  }

  /**
   The connection raises exactly when the window is negative, which section
   6.9.2 of RFC 9113 allows and the test for zero does not catch. A frame that
   is made is the next part of the body, as much of it as there is room for,
   and ends the stream exactly when it is the last part and that was asked for.
   */
  lemma PreparedIff(body: ReqBody, env: Env)
    requires body.body.Some?
    ensures PrepareFrame(body, env) == Refused <==> env.window < 0
    ensures PrepareFrame(body, env) == NoRoom <==> env.window == 0 || (env.maxFrame == 0 && env.window > 0)
    ensures var data := body.body.value;
            PrepareFrame(body, env).Made? ==>
              var f := PrepareFrame(body, env).frame;
              && f.streamId == body.streamId
              && f.payload <= data && |f.payload| == Least(|data|, env.maxFrame, env.window)
              && (f.endStream <==> f.payload == data && body.endStream)
  {
  }

  function Least(a: int, b: int, c: int): int {
    var least := if a < b then a else b;
    if least < c then least else c
  }

  // ------------------------------------------------------------------------ steps

  /** `BaseDeproxyClient._send_data`: sends a part of the current buffer, and moves on if that empties it. */
  function SendBuffer(q: Queue, env: Env): Queue
    requires q.cur < |q.buffers|
  {
    var data := q.buffers[q.cur];
    var offered := if env.segmentSize > 0 then |SliceTo(data, env.segmentSize)| else |data|;
    var sent := if env.accept < offered then env.accept else offered;
    q.(buffers := q.buffers[q.cur := data[sent..]],
       wire := q.wire + data[..sent],
       cur := if data[sent..] == [] then q.cur + 1 else q.cur)
  }

  /** Puts a new frame in the place of the sent buffer of entry i. */
  function LoadFrame(q: Queue, i: nat, f: Frame): Queue
    requires i < |q.buffers| == |q.bodies| == |q.frames| && q.bodies[i].body.Some?
    requires |f.payload| <= |q.bodies[i].body.value|
  {
    var data := q.bodies[i].body.value;
    var left := if |data| == |f.payload| then None else Some(data[|f.payload|..]);
    q.(buffers := q.buffers[i := FrameBytes(f)],
       bodies := q.bodies[i := q.bodies[i].(body := left)],
       frames := q.frames[i := q.frames[i] + [f]])
  }

  predicate Shaped(q: Queue) {
    |q.buffers| == |q.bodies| == |q.frames| && q.cur <= |q.buffers|
  }

  /** `DeproxyClientH2._send_data` */
  function SendData(q: Queue, env: Env): (r: Queue)
    requires Shaped(q) && q.cur < |q.buffers|
    ensures Shaped(r) && |r.buffers| == |q.buffers|
  {
    var i := q.cur;
    var sent := BytesSent(q, env);
    if sent.buffers[i] == [] && sent.bodies[i].body.Some? then
      var back := sent.(cur := i);
      match PrepareFrame(back.bodies[i], env)
      case Made(f) => LoadFrame(back, i, f)
      case _ => back
    else sent
  }

  /** The bytes of the current entry go out, if there are any. */
  function BytesSent(q: Queue, env: Env): (r: Queue)
    requires Shaped(q) && q.cur < |q.buffers|
    ensures Shaped(r) && |r.buffers| == |q.buffers| && r.bodies == q.bodies && r.frames == q.frames
  {
    if q.buffers[q.cur] != [] then SendBuffer(q, env) else q
  }

  /** The call raises, after the bytes have gone out and the index has been pulled back. */
  predicate Raises(q: Queue, env: Env)
    requires Shaped(q) && q.cur < |q.buffers|
  {
    && BytesSent(q, env).buffers[q.cur] == [] && q.bodies[q.cur].body.Some?
    && PrepareFrame(q.bodies[q.cur], env) == Refused
  }

  function Enqueue(q: Queue, e: Entry): Queue {
    q.(buffers := q.buffers + [e.head], bodies := q.bodies + [e.body], frames := q.frames + [[]])
  }

  // -------------------------------------------------------------------- the object

  /** What `make_request` and `send_bytes` accept, with header bytes already encoded. */
  datatype Outgoing =
    | Raw(bytes: Bytes)
    | BodyOnly(body: Bytes)
    | HeadersAndBody(headers: Bytes, body: Bytes)
    | HeadersOnly(headers: Bytes)

  function EntryOf(o: Outgoing, streamId: nat, endStream: bool): Entry {
    match o
    case Raw(bytes) => Entry(bytes, ReqBody(None, 0, false))
    case BodyOnly(body) => Entry([], ReqBody(Some(body), streamId, endStream))
    case HeadersAndBody(headers, body) => Entry(headers, ReqBody(Some(body), streamId, endStream))
    case HeadersOnly(headers) => Entry(headers, ReqBody(None, 0, false))
  }

  class DeproxyClientH2 {
    var requestBuffers: seq<Bytes>
    var reqBodyBuffers: seq<ReqBody>
    var curReqNum: nat
    ghost var wire: Bytes
    ghost var frames: seq<seq<Frame>>

    ghost function View(): Queue
      reads this
    {
      Queue(requestBuffers, reqBodyBuffers, curReqNum, wire, frames)
    }

    constructor ()
      ensures View() == EMPTY
    {
      requestBuffers, reqBodyBuffers, curReqNum, wire, frames := [], [], 0, [], [];
    }

    /** `_add_to_request_buffers` */
    method AddToRequestBuffers(o: Outgoing, streamId: nat, endStream: bool)
      requires Shaped(View())
      modifies this
      ensures View() == Enqueue(old(View()), EntryOf(o, streamId, endStream))
    {
      match o {
        case Raw(bytes) =>
          requestBuffers := requestBuffers + [bytes];
          reqBodyBuffers := reqBodyBuffers + [ReqBody(None, 0, false)];
        case BodyOnly(body) =>
          requestBuffers := requestBuffers + [[]];
          reqBodyBuffers := reqBodyBuffers + [ReqBody(Some(body), streamId, endStream)];
        case HeadersAndBody(headers, body) =>
          requestBuffers := requestBuffers + [headers];
          reqBodyBuffers := reqBodyBuffers + [ReqBody(Some(body), streamId, endStream)];
        case HeadersOnly(headers) =>
          requestBuffers := requestBuffers + [headers];
          reqBodyBuffers := reqBodyBuffers + [ReqBody(None, 0, false)];
      }
      frames := frames + [[]];
    }

    method BaseSendData(env: Env)
      requires Shaped(View()) && curReqNum < |requestBuffers|
      modifies this`requestBuffers, this`curReqNum, this`wire
      ensures View() == SendBuffer(old(View()), env)
    {
      var data := requestBuffers[curReqNum];
      var offered := if env.segmentSize > 0 then |SliceTo(data, env.segmentSize)| else |data|;
      var sent := if env.accept < offered then env.accept else offered;
      wire := wire + data[..sent];
      requestBuffers := requestBuffers[curReqNum := data[sent..]];
      if |requestBuffers[curReqNum]| == 0 {
        curReqNum := curReqNum + 1;
      }
    }

    /** `_send_data`; says whether it raises. */
    method SendDataFrames(env: Env) returns (raised: bool)
      requires Shaped(View()) && curReqNum < |requestBuffers|
      modifies this
      ensures View() == SendData(old(View()), env) && raised == Raises(old(View()), env)
    {
      raised := false;
      var cur := curReqNum;
      if requestBuffers[cur] != [] {
        BaseSendData(env);
      }
      var body := reqBodyBuffers[cur].body;
      if requestBuffers[cur] == [] && body.Some? {
        if curReqNum > cur {
          curReqNum := curReqNum - 1;
        }
        var frame := PrepareFrame(reqBodyBuffers[cur], env);
        if !frame.Made? {
          return frame == Refused;
        }
        var size := |frame.frame.payload|;
        requestBuffers := requestBuffers[cur := FrameBytes(frame.frame)];
        var left := if |body.value| == size then None else Some(body.value[size..]);
        reqBodyBuffers := reqBodyBuffers[cur := reqBodyBuffers[cur].(body := left)];
        frames := frames[cur := frames[cur] + [frame.frame]];
      }
    }
  }

  // ------------------------------------------------------- what every step preserves

  function Payloads(fs: seq<Frame>): Bytes {
    if fs == [] then [] else Payloads(fs[..|fs| - 1]) + fs[|fs| - 1].payload
  }

  function FramesBytes(fs: seq<Frame>): Bytes {
    if fs == [] then [] else FramesBytes(fs[..|fs| - 1]) + FrameBytes(fs[|fs| - 1])
  }

  /** Everything entry e puts on the wire with these frames. */
  function Full(e: Entry, fs: seq<Frame>): Bytes {
    e.head + FramesBytes(fs)
  }

  /** The first k entries, one after the other. */
  function WireOf(es: seq<Entry>, frames: seq<seq<Frame>>, k: nat): Bytes
    requires k <= |es| && k <= |frames|
  {
    if k == 0 then [] else WireOf(es, frames, k - 1) + Full(es[k - 1], frames[k - 1])
  }

  /**
   The frames of an entry, `left` of its body still to be framed: they carry
   the body, and END_STREAM is on the last of them alone, if it was asked for.
   */
  predicate GoodFrames(e: Entry, fs: seq<Frame>, left: Option<Bytes>) {
    && (forall i | 0 <= i < |fs| :: fs[i].streamId == e.body.streamId)
    && (e.body.body.None? ==> fs == [] && left == None)
    && (e.body.body.Some? ==> Payloads(fs) + (if left.Some? then left.value else []) == e.body.body.value)
    && (forall i | 0 <= i < |fs| - 1 :: !fs[i].endStream)
    && (e.body.body.Some? && left.None? ==> fs != [] && fs[|fs| - 1].endStream == e.body.endStream)
    && (left.Some? && fs != [] ==> !fs[|fs| - 1].endStream)
  }

  predicate EntryKept(e: Entry, q: Queue, i: nat)
    requires Shaped(q) && i < |q.bodies|
  {
    && GoodFrames(e, q.frames[i], q.bodies[i].body)
    && q.bodies[i].streamId == e.body.streamId && q.bodies[i].endStream == e.body.endStream
    && (i < q.cur ==> q.buffers[i] == [] && q.bodies[i].body == None)
    && (i > q.cur ==> q.buffers[i] == e.head && q.bodies[i] == e.body && q.frames[i] == [])
  }

  /** The wire is the entries before the current one, whole and in order, and the sent part of the current one. */
  predicate WireKept(es: seq<Entry>, q: Queue)
    requires Shaped(q) && |es| == |q.buffers|
  {
    if q.cur == |es| then q.wire == WireOf(es, q.frames, q.cur)
    else
      && q.wire + q.buffers[q.cur] == WireOf(es, q.frames, q.cur + 1)
      && |WireOf(es, q.frames, q.cur)| <= |q.wire|
  }

  predicate Inv(es: seq<Entry>, q: Queue) {
    && Shaped(q) && |es| == |q.buffers|
    && (forall i | 0 <= i < |es| :: EntryKept(es[i], q, i))
    && WireKept(es, q)
  }

  lemma {:induction false} WireOfStable(
    es: seq<Entry>, frames: seq<seq<Frame>>, es': seq<Entry>, frames': seq<seq<Frame>>, k: nat)
    requires k <= |es| && k <= |frames| && k <= |es'| && k <= |frames'|
    requires es[..k] == es'[..k] && frames[..k] == frames'[..k]
    ensures WireOf(es, frames, k) == WireOf(es', frames', k)
  {
    if k == 0 {
    } else {
      assert es[k - 1] == es[..k][k - 1] && es'[k - 1] == es'[..k][k - 1];
      assert frames[k - 1] == frames[..k][k - 1] && frames'[k - 1] == frames'[..k][k - 1];
      assert es[..k - 1] == es[..k][..k - 1] && es'[..k - 1] == es'[..k][..k - 1];
      assert frames[..k - 1] == frames[..k][..k - 1] && frames'[..k - 1] == frames'[..k][..k - 1];
      WireOfStable(es, frames, es', frames', k - 1);
    }
  }

  lemma EnqueueKeeps(es: seq<Entry>, q: Queue, e: Entry)
    requires Inv(es, q)
    ensures Inv(es + [e], Enqueue(q, e))
  {
    hide GoodFrames, WireKept;
    var es', q' := es + [e], Enqueue(q, e);
    forall i | 0 <= i < |es'| ensures EntryKept(es'[i], q', i) {
      if i < |es| {
        assert EntryKept(es[i], q, i);
      } else {
        FreshFrames(e);
      }
    }
    EnqueueKeepsWire(es, q, e);
  }

  lemma EnqueueKeepsWire(es: seq<Entry>, q: Queue, e: Entry)
    requires Shaped(q) && |es| == |q.buffers| && WireKept(es, q)
    ensures WireKept(es + [e], Enqueue(q, e))
  {
    var es', q' := es + [e], Enqueue(q, e);
    WireOfStable(es, q.frames, es', q'.frames, q.cur);
    if q.cur < |es| {
      WireOfStable(es, q.frames, es', q'.frames, q.cur + 1);
    } else {
      assert FramesBytes([]) == [] && q.wire + e.head == q.wire + (e.head + []);
    }
  }

  lemma FreshFrames(e: Entry)
    ensures GoodFrames(e, [], e.body.body)
  {
    assert e.body.body.Some? ==> [] + e.body.body.value == e.body.body.value;
  }

  /** Sending bytes of an entry that has no body left moves on to the next entry. */
  lemma SendBufferKeeps(es: seq<Entry>, q: Queue, env: Env)
    requires Inv(es, q) && q.cur < |es| && q.buffers[q.cur] != []
    ensures var r := SendBuffer(q, env);
            var i := q.cur;
            && (r.cur == i || q.bodies[i].body.None? ==> Inv(es, r))
            && (r.cur > i ==> Inv(es, r.(cur := i)) && r.buffers[i] == [])
  {
    hide GoodFrames, WireOf;
    var i := q.cur;
    var r := SendBuffer(q, env);
    var b := r.(cur := i);
    var data := q.buffers[i];
    var sent := |r.wire| - |q.wire|;
    assert data == data[..sent] + data[sent..];
    assert q.wire + data == q.wire + data[..sent] + data[sent..];
    forall j | 0 <= j < |es| ensures EntryKept(es[j], b, j) {
      assert EntryKept(es[j], q, j);
    }
    assert Inv(es, b);
    if r.cur > i && q.bodies[i].body.None? {
      forall j | 0 <= j < |es| ensures EntryKept(es[j], r, j) {
        assert EntryKept(es[j], b, j);
      }
      assert b.wire + [] == b.wire;
      if r.cur < |es| {
        NextEntryStarts(es, r, r.cur);
      }
    }
  }

  /** An entry not yet started adds its header bytes. */
  lemma NextEntryStarts(es: seq<Entry>, q: Queue, k: nat)
    requires Shaped(q) && |es| == |q.buffers| && k < |es|
    requires q.buffers[k] == es[k].head && q.frames[k] == []
    ensures WireOf(es, q.frames, k + 1) == WireOf(es, q.frames, k) + q.buffers[k]
  {
    assert es[k].head + [] == es[k].head;
  }

  lemma FrameAdded(e: Entry, fs: seq<Frame>, left: Bytes, f: Frame, env: Env)
    requires GoodFrames(e, fs, Some(left))
    requires PrepareFrame(ReqBody(Some(left), e.body.streamId, e.body.endStream), env) == Made(f)
    ensures |f.payload| <= |left|
    ensures GoodFrames(e, fs + [f], if |left| == |f.payload| then None else Some(left[|f.payload|..]))
  {
    hide Payloads, PrepareFrame;
    PreparedIff(ReqBody(Some(left), e.body.streamId, e.body.endStream), env);
    var fs' := fs + [f];
    assert f.payload == left[..|f.payload|];
    PayloadsSnoc(fs, f);
    PayloadTaken(Payloads(fs), left, |f.payload|);
    assert Payloads(fs') + [] == Payloads(fs');
  }

  lemma PayloadsSnoc(fs: seq<Frame>, f: Frame)
    ensures Payloads(fs + [f]) == Payloads(fs) + f.payload
  {
    assert (fs + [f])[..|fs|] == fs;
  }

  lemma PayloadTaken(sent: Bytes, left: Bytes, n: nat)
    requires n <= |left|
    ensures sent + left[..n] + left[n..] == sent + left
  {
    assert left == left[..n] + left[n..];
  }

  lemma LoadFrameKeeps(es: seq<Entry>, q: Queue, f: Frame, env: Env)
    requires Inv(es, q) && q.cur < |es|
    requires q.buffers[q.cur] == [] && q.bodies[q.cur].body.Some?
    requires PrepareFrame(q.bodies[q.cur], env) == Made(f)
    ensures |f.payload| <= |q.bodies[q.cur].body.value| && Inv(es, LoadFrame(q, q.cur, f))
  {
    hide PrepareFrame, GoodFrames, FrameBytes, WireKept;
    var i := q.cur;
    assert EntryKept(es[i], q, i);
    FrameAdded(es[i], q.frames[i], q.bodies[i].body.value, f, env);
    var r := LoadFrame(q, i, f);
    forall j | 0 <= j < |es| ensures EntryKept(es[j], r, j) {
      assert EntryKept(es[j], q, j);
    }
    LoadFrameKeepsWire(es, q, f);
  }

  lemma LoadFrameKeepsWire(es: seq<Entry>, q: Queue, f: Frame)
    requires Shaped(q) && |es| == |q.buffers| && WireKept(es, q) && q.cur < |es|
    requires q.buffers[q.cur] == [] && q.bodies[q.cur].body.Some? && |f.payload| <= |q.bodies[q.cur].body.value|
    ensures WireKept(es, LoadFrame(q, q.cur, f))
  {
    hide FrameBytes;
    var i := q.cur;
    var r := LoadFrame(q, i, f);
    WireOfStable(es, q.frames, es, r.frames, i);
    var fs := r.frames[i];
    assert fs[..|fs| - 1] == q.frames[i];
    assert q.wire + [] == q.wire;
    assert WireOf(es, q.frames, i) + (es[i].head + FramesBytes(q.frames[i])) + FrameBytes(f)
        == WireOf(es, q.frames, i) + (es[i].head + (FramesBytes(q.frames[i]) + FrameBytes(f)));
  }

  /** The frame fits the frame limit and the window of a call. */
  predicate Fits(f: Frame, env: Env) {
    |f.payload| <= env.maxFrame && |f.payload| <= env.window
  }

  /** One frame more, that fits. */
  predicate OneMore(before: seq<Frame>, after: seq<Frame>, env: Env) {
    |after| == |before| + 1 && after[..|before|] == before && Fits(after[|before|], env)
  }

  /** A call makes at most one frame, for the current entry, that fits the limits of that very call. */
  lemma SendDataFits(q: Queue, env: Env)
    requires Shaped(q) && q.cur < |q.buffers|
    ensures var r := SendData(q, env);
            && q.wire <= r.wire
            && (forall i | 0 <= i < |q.frames| && i != q.cur :: r.frames[i] == q.frames[i])
            && (r.frames[q.cur] == q.frames[q.cur] || OneMore(q.frames[q.cur], r.frames[q.cur], env))
  {
    hide FrameBytes;
    var i := q.cur;
    var sent := BytesSent(q, env);
    if sent.buffers[i] == [] && sent.bodies[i].body.Some? {
      var frame := PrepareFrame(q.bodies[i], env);
      if frame.Made? {
        assert (q.frames[i] + [frame.frame])[..|q.frames[i]|] == q.frames[i];
      }
    }
  }

  /** A call that raises has sent the entry's bytes and pulled the index back; it made no frame and touched no body. */
  lemma RaisedKeeps(q: Queue, env: Env)
    requires Shaped(q) && q.cur < |q.buffers|
    ensures Raises(q, env) ==>
              var r := SendData(q, env);
              && env.window < 0 && r.cur == q.cur && r.buffers[q.cur] == [] && r.wire == q.wire + q.buffers[q.cur]
              && r.bodies == q.bodies && r.frames == q.frames
  {
    hide FrameBytes, PrepareFrame;
    var data := q.buffers[q.cur];
    if Raises(q, env) {
      PreparedIff(q.bodies[q.cur], env);
      assert data == [] ==> q.wire + data == q.wire;
      assert forall n | 0 <= n <= |data| && data[n..] == [] :: data[..n] == data;
    }
  }

  /** Conservation and order survive every call of `_send_data`. */
  lemma SendDataKeeps(es: seq<Entry>, q: Queue, env: Env)
    requires Inv(es, q) && q.cur < |es|
    ensures Inv(es, SendData(q, env))
  {
    hide PrepareFrame, LoadFrame, EntryKept, WireKept;
    var i := q.cur;
    if q.buffers[i] != [] {
      SendBufferKeeps(es, q, env);
    }
    var sent := BytesSent(q, env);
    if sent.buffers[i] == [] && sent.bodies[i].body.Some? {
      var back := sent.(cur := i);
      var frame := PrepareFrame(back.bodies[i], env);
      if frame.Made? {
        LoadFrameKeeps(es, back, frame.frame, env);
      }
    }
  }

  // ------------------------------------------------------------------- whole runs

  datatype Event = Send(env: Env) | Add(entry: Entry)

  /** A send with nothing left to send does not happen. */
  function Step(q: Queue, e: Event): (r: Queue)
    requires Shaped(q)
    ensures Shaped(r)
  {
    match e
    case Send(env) => if q.cur < |q.buffers| then SendData(q, env) else q
    case Add(entry) => Enqueue(q, entry)
  }

  function Run(events: seq<Event>): (r: Queue)
    ensures Shaped(r)
  {
    if events == [] then EMPTY else Step(Run(events[..|events| - 1]), events[|events| - 1])
  }

  function Added(events: seq<Event>): seq<Entry> {
    if events == [] then []
    else
      var before := Added(events[..|events| - 1]);
      var last := events[|events| - 1];
      if last.Add? then before + [last.entry] else before
  }

  lemma {:induction false} RunKeeps(events: seq<Event>)
    ensures Inv(Added(events), Run(events))
  {
    hide EntryKept, WireKept, SendData, Enqueue;
    if events == [] {
      assert Inv([], EMPTY) by { EmptyHolds(); }
    } else {
      var before := events[..|events| - 1];
      RunKeeps(before);
      match events[|events| - 1] {
        case Send(env) =>
          if Run(before).cur < |Added(before)| {
            SendDataKeeps(Added(before), Run(before), env);
          }
        case Add(entry) => EnqueueKeeps(Added(before), Run(before), entry);
      }
    }
  }

  lemma EmptyHolds()
    ensures Inv([], EMPTY)
  {
  }

  /** The k-th event is the call that made frame j of entry i, and the frame fits the limits of that call. */
  predicate MadeAt(events: seq<Event>, k: nat, i: nat, j: nat, f: Frame) {
    && k < |events| && events[k].Send? && Fits(f, events[k].env)
    && var before, after := Run(events[..k]).frames, Run(events[..k + 1]).frames;
       i < |before| && i < |after| && |before[i]| == j && |after[i]| == j + 1
  }

  ghost predicate MadeByCall(events: seq<Event>, i: nat, j: nat, f: Frame) {
    exists k: nat :: MadeAt(events, k, i, j, f)
  }

  ghost predicate AllFit(frames: seq<seq<Frame>>, events: seq<Event>) {
    forall i: nat, j: nat | i < |frames| && j < |frames[i]| :: MadeByCall(events, i, j, frames[i][j])
  }

  lemma AllFitLonger(frames: seq<seq<Frame>>, events: seq<Event>, e: Event)
    requires AllFit(frames, events)
    ensures AllFit(frames, events + [e])
  {
    hide Run, Fits;
    var more := events + [e];
    forall i: nat, j: nat | i < |frames| && j < |frames[i]| ensures MadeByCall(more, i, j, frames[i][j]) {
      assert MadeByCall(events, i, j, frames[i][j]);
      var k: nat :| MadeAt(events, k, i, j, frames[i][j]);
      assert more[..k] == events[..k] && more[..k + 1] == events[..k + 1];
      assert MadeAt(more, k, i, j, frames[i][j]);
    }
  }

  lemma {:induction false} RunFits(events: seq<Event>)
    ensures AllFit(Run(events).frames, events)
  {
    if events == [] {
    } else {
      hide SendData, MadeByCall, Fits;
      var before, e := events[..|events| - 1], events[|events| - 1];
      var q := Run(before);
      RunFits(before);
      AllFitLonger(q.frames, before, e);
      assert before + [e] == events;
      if e.Send? && q.cur < |q.buffers| {
        SendDataFits(q, e.env);
        var r := SendData(q, e.env);
        forall i: nat, j: nat | i < |r.frames| && j < |r.frames[i]| ensures MadeByCall(events, i, j, r.frames[i][j]) {
          if j < |q.frames[i]| {
            assert r.frames[i][j] == r.frames[i][..|q.frames[i]|][j] == q.frames[i][j];
          } else {
            MadeByTheLast(events, i, j, r.frames[i][j]);
          }
        }
      }
    }
  }

  lemma MadeByTheLast(events: seq<Event>, i: nat, j: nat, f: Frame)
    requires events != [] && events[|events| - 1].Send? && Fits(f, events[|events| - 1].env)
    requires var before, after := Run(events[..|events| - 1]).frames, Run(events).frames;
             i < |before| && i < |after| && |before[i]| == j && |after[i]| == j + 1
    ensures MadeByCall(events, i, j, f)
  {
    assert events[..|events|] == events;
    assert MadeAt(events, |events| - 1, i, j, f);
  }

  /**
   Conservation and order, over every run with any partial sends, segment
   sizes and windows, negative ones included, and any entries queued on the
   way: the frames of each entry followed by what is left carry its body; each
   fits the frame limit and the window of the very call that made it;
   END_STREAM is on the last frame alone; and the wire is the entries before the current one, whole and
   in order, and a part of the current one.
   */
  lemma SendConservation(events: seq<Event>)
    ensures var es, q := Added(events), Run(events);
            && |q.bodies| == |q.frames| == |q.buffers| == |es| && q.cur <= |es|
            && (forall i | 0 <= i < |es| :: GoodFrames(es[i], q.frames[i], q.bodies[i].body))
            && AllFit(q.frames, events)
            && (forall i | 0 <= i < q.cur :: q.buffers[i] == [] && q.bodies[i].body == None)
            && WireOf(es, q.frames, q.cur) <= q.wire
            && (q.cur == |es| ==> q.wire == WireOf(es, q.frames, q.cur))
            && (q.cur < |es| ==> q.wire <= WireOf(es, q.frames, q.cur + 1))
  {
    hide Run, Added, GoodFrames, AllFit;
    RunKeeps(events);
    RunFits(events);
    var es, q := Added(events), Run(events);
    forall i | 0 <= i < |es|
      ensures GoodFrames(es[i], q.frames[i], q.bodies[i].body)
      ensures i < q.cur ==> q.buffers[i] == [] && q.bodies[i].body == None
    {
      assert EntryKept(es[i], q, i);
    }
    if q.cur < |es| {
      var start := WireOf(es, q.frames, q.cur);
      assert q.wire == WireOf(es, q.frames, q.cur + 1)[..|q.wire|];
      assert start == WireOf(es, q.frames, q.cur + 1)[..|start|];
    }
  }
}
