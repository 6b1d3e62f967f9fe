/**
 The HTTP/1 client's read loop: each response is parsed under the method of the
 request it answers, taken from the list of methods recorded when requests were
 queued.
 */
module Client {
  import opened Message
  import opened Grammar
  import opened SelfDelimiting
  import opened Parser
  import opened ReadLoop
  import opened Sequences

  /** The n-th response; with no method recorded for it the list index fails. */
  function ResponseParser(methods: seq<string>): NthParser<Response> {
    (n: nat, s: string) => if n < |methods| then ParseResponse(methods[n], s) else Crash
  }

  lemma ResponseParserConsumes(methods: seq<string>)
    ensures Consuming(ResponseParser(methods))
  {
  }

  class DeproxyClient {
    var methods: seq<string>
    var responseBuffer: string
    var responses: seq<Response>
    var nrresp: nat

    ghost predicate Valid()
      reads this
    {
      nrresp == |responses|
    }

    constructor (methods: seq<string>)
      ensures Valid() && this.methods == methods && responses == [] && responseBuffer == ""
    {
      this.methods, responseBuffer, responses, nrresp := methods, "", [], 0;
    }

    /** Parses the start of the buffer under the method of the next response. */
    method ParseNext() returns (status: Status, response: Response, length: nat)
      ensures var o := ResponseParser(methods)(nrresp, responseBuffer);
              status == StatusOf(o)
              && (status == Done ==>
                    response == o.value && 0 < length <= |responseBuffer| && responseBuffer[length..] == o.rest)
    {
      hide ParseResponse;
      var message := new HttpMessage(if nrresp < |methods| then methods[nrresp] else "");
      if nrresp >= |methods| {
        status := OtherError;
      } else {
        status := message.ParseResponseText(responseBuffer);
      }
      response := Response(StatusLine(message.version, message.status, message.reason),
                           Content(message.headers, Body(message.body, message.trailer)));
      length := message.originalLength;
    }

    /** `_handle_read` with `data` received; IncompleteMessage is caught inside. */
    method HandleRead(data: string) returns (raised: Status)
      requires Valid()
      modifies this`responseBuffer, this`responses, this`nrresp
      ensures Valid() && Consuming(ResponseParser(methods))
      ensures Peeled(responses, responseBuffer)
           == Receive(ResponseParser(methods), Peeled(old(responses), old(responseBuffer)), data)
      ensures raised == if responseBuffer == "" then Done else
                var st := StatusOf(ResponseParser(methods)(nrresp, responseBuffer));
                if st == IncompleteMessage then Done else st
    {
      ResponseParserConsumes(methods);
      hide ResponseParser, Consuming, Peel;
      ghost var parse := ResponseParser(methods);
      responseBuffer := responseBuffer + data;
      ghost var whole := Receive(parse, Peeled(responses, responseBuffer), "");
      assert responseBuffer + "" == responseBuffer;
      while |responseBuffer| > 0
        invariant Valid()
        invariant whole == Receive(parse, Peeled(responses, responseBuffer), "")
        decreases |responseBuffer|
      {
        PeelTurn(parse, Peeled(responses, responseBuffer));
        var status, response, length := ParseNext();
        if status == IncompleteMessage {
          return Done;
        }
        if status != Done {
          return status;
        }
        responseBuffer := responseBuffer[length..];
        nrresp := nrresp + 1;
        responses := responses + [response];
      }
      PeelTurn(parse, Peeled(responses, responseBuffer));
      raised := Done;
    }
  }

  function TextsOf(ws: seq<WireResponse>): (ts: seq<string>)
    ensures |ts| == |ws| && forall i | 0 <= i < |ws| :: ts[i] == ResponseWire(ws[i], "")
  {
    seq(|ws|, i requires 0 <= i < |ws| => ResponseWire(ws[i], ""))
  }

  function MeaningsOf(ws: seq<WireResponse>): (ms: seq<Response>)
    ensures |ms| == |ws| && forall i | 0 <= i < |ws| :: ms[i] == ResponseMeaning(ws[i])
  {
    seq(|ws|, i requires 0 <= i < |ws| => ResponseMeaning(ws[i]))
  }

  /** The i-th response is framed as an answer to the i-th recorded method. */
  predicate Answers(methods: seq<string>, ws: seq<WireResponse>) {
    |ws| <= |methods|
    && forall i | 0 <= i < |ws| :: ValidResponse(methods[i], ws[i]) && CutSafeBody(HeadersOf(ws[i].fields), ws[i].body)
  }

  lemma ResponseReads(methods: seq<string>, n: nat, w: WireResponse)
    requires n < |methods| && ValidResponse(methods[n], w)
    ensures Reads(ResponseParser(methods), n, ResponseWire(w, ""), ResponseMeaning(w))
  {
    hide ParseResponse, ResponseWire, ResponseMeaning, ValidResponse;
    var text := ResponseWire(w, "");
    ResponseNotEmpty(w);
    forall t ensures ResponseParser(methods)(n, text + t) == Ok(ResponseMeaning(w), t) {
      ResponseRead(methods[n], w, t);
    }
  }

  /** No part of a response is taken for one exactly when its body is safe to cut. */
  lemma ResponsePartIff(methods: seq<string>, n: nat, w: WireResponse)
    requires n < |methods| && ValidResponse(methods[n], w)
    ensures NoPartRead(ResponseParser(methods), n, ResponseWire(w, "")) <==> CutSafeBody(HeadersOf(w.fields), w.body)
  {
    hide ParseResponse, ResponseWire, ValidResponse, CutSafeBody;
    var text := ResponseWire(w, "");
    ResponseCutIff(methods[n], w);
    if CutSafeBody(HeadersOf(w.fields), w.body) {
      forall k | 0 < k < |text| ensures !ResponseParser(methods)(n, text[..k]).Ok? {
        assert ParseResponse(methods[n], ResponseWire(w, "")[..k]) == Incomplete;
      }
    } else {
      var p := UnsafeResponseCut(methods[n], w);
      assert text[..|p|] == p;
      assert ResponseParser(methods)(n, text[..|p|]).Ok?;
    }
  }

  lemma ResponseNotEmpty(w: WireResponse)
    ensures ResponseWire(w, "") != ""
  {
    hide ContentWire, StatusLineText;
  }

  /**
   However the responses to pipelined requests are cut into segments, the i-th
   response delivered is the i-th one sent, parsed under the i-th method, as
   soon as it is whole; and no read raises.
   */
  lemma ClientPairing(methods: seq<string>, ws: seq<WireResponse>, segments: seq<string>)
    requires Answers(methods, ws) && Concat(segments) <= Concat(TextsOf(ws))
    ensures Consuming(ResponseParser(methods))
    ensures var bytes := Concat(segments);
            var k := Whole(TextsOf(ws), |bytes|);
            var taken := |Concat(TextsOf(ws)[..k])|;
            var end := ReceiveAll(ResponseParser(methods), segments);
            && taken <= |bytes| && end == Peeled(MeaningsOf(ws)[..k], bytes[taken..])
            && (end.left == "" || ResponseParser(methods)(k, end.left) == Incomplete)
  {
    hide ParseResponse, ReceiveAll, Whole, Reads, NoPartRead, CutSafeBody, ValidResponse;
    var texts, ms := TextsOf(ws), MeaningsOf(ws);
    ResponseParserConsumes(methods);
    assert AllFramed(ResponseParser(methods), 0, texts, ms) by {
      forall i | 0 <= i < |ws| ensures Framed(ResponseParser(methods), 0 + i, texts[i], ms[i]) {
        ResponseReads(methods, i, ws[i]);
        ResponsePartIff(methods, i, ws[i]);
      }
    }
    assert Concat(texts) + "" == Concat(texts);
    SegmentationInvariance(ResponseParser(methods), texts, ms, "", segments);
    LeftIsIncomplete(methods, ws, segments);
  }

  predicate AllValid(methods: seq<string>, ws: seq<WireResponse>) {
    |ws| <= |methods| && forall i | 0 <= i < |ws| :: ValidResponse(methods[i], ws[i])
  }

  /** Those wholly received are delivered, for every segmentation, exactly when all responses are safe to cut. */
  lemma ClientPairingIff(methods: seq<string>, ws: seq<WireResponse>)
    requires AllValid(methods, ws)
    ensures Consuming(ResponseParser(methods))
    ensures (forall segments | Concat(segments) <= Concat(TextsOf(ws)) ::
               Exact(ResponseParser(methods), TextsOf(ws), MeaningsOf(ws), segments))
       <==> forall i | 0 <= i < |ws| :: CutSafeBody(HeadersOf(ws[i].fields), ws[i].body)
  {
    ResponseParserConsumes(methods);
    hide ParseResponse, Exact, Reads, NoPartRead, CutSafeBody, ValidResponse, Concat, Consuming;
    var parse, texts, ms := ResponseParser(methods), TextsOf(ws), MeaningsOf(ws);
    forall i | 0 <= i < |ws|
      ensures Reads(parse, 0 + i, texts[i], ms[i])
      ensures NoPartRead(parse, i, texts[i]) <==> CutSafeBody(HeadersOf(ws[i].fields), ws[i].body)
    {
      ResponseReads(methods, i, ws[i]);
      ResponsePartIff(methods, i, ws[i]);
    }
    SegmentationIff(parse, texts, ms);
  }

  lemma LeftIsIncomplete(methods: seq<string>, ws: seq<WireResponse>, segments: seq<string>)
    requires Answers(methods, ws) && Concat(segments) <= Concat(TextsOf(ws))
    ensures var bytes := Concat(segments);
            var k := Whole(TextsOf(ws), |bytes|);
            |Concat(TextsOf(ws)[..k])| <= |bytes| &&
            var left := bytes[|Concat(TextsOf(ws)[..k])|..];
            left == "" || ResponseParser(methods)(k, left) == Incomplete
  {
    hide ParseResponse, Whole, ResponseWire, ValidResponse, CutSafeBody, Concat;
    var texts, bytes := TextsOf(ws), Concat(segments);
    assert Concat(texts) + "" == Concat(texts);
    LeftIsPart(texts, "", bytes);
    var k := Whole(texts, |bytes|);
    var left := bytes[|Concat(texts[..k])|..];
    if left != "" {
      ResponseCutIff(methods[k], ws[k]);
      assert left == ResponseWire(ws[k], "")[..|left|];
    }
  }
}
