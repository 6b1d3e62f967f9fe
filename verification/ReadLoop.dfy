/**
 The loop both ends of a connection run on a buffer that grows segment by
 segment: parse, take the message and its text out of the buffer, repeat. For
 any parser and any stream of framed messages, what has been taken out depends
 on the bytes received so far and not on how they were cut into segments.
 */
module ReadLoop {
  import opened Message
  import opened Sequences

  /** How to parse the n-th message of a connection. */
  type NthParser<!M> = (nat, string) -> Outcome<M>

  ghost predicate Consuming<M>(parse: NthParser<M>) {
    forall n, s :: parse(n, s).Ok? ==> |parse(n, s).rest| < |s|
  }

  /** Messages taken so far and the text left in the buffer. */
  datatype Peeled<M> = Peeled(messages: seq<M>, left: string)

  /** Takes messages out of `buffer` until it is empty or the parser raises; the next message is the n-th. */
  ghost function Peel<M>(parse: NthParser<M>, n: nat, buffer: string): Peeled<M>
    requires Consuming(parse)
    decreases |buffer|
  {
    if buffer == "" || !parse(n, buffer).Ok? then Peeled([], buffer)
    else
      var rest := Peel(parse, n + 1, parse(n, buffer).rest);
      Peeled([parse(n, buffer).value] + rest.messages, rest.left)
  }

  /** One more segment arrives. */
  ghost function Receive<M>(parse: NthParser<M>, before: Peeled<M>, segment: string): Peeled<M>
    requires Consuming(parse)
  {
    var now := Peel(parse, |before.messages|, before.left + segment);
    Peeled(before.messages + now.messages, now.left)
  }

  ghost function ReceiveAll<M>(parse: NthParser<M>, segments: seq<string>): Peeled<M>
    requires Consuming(parse)
  {
    if segments == [] then Peeled([], "")
    else Receive(parse, ReceiveAll(parse, segments[..|segments| - 1]), segments[|segments| - 1])
  }

  /** `text` is read as `m`, whatever follows it. */
  ghost predicate Reads<M>(parse: NthParser<M>, n: nat, text: string, m: M) {
    text != "" && forall t :: parse(n, text + t) == Ok(m, t)
  }

  /** No part of `text` is taken for a message. */
  predicate NoPartRead<M>(parse: NthParser<M>, n: nat, text: string) {
    forall k | 0 < k < |text| :: !parse(n, text[..k]).Ok?
  }

  ghost predicate Framed<M>(parse: NthParser<M>, n: nat, text: string, m: M) {
    Reads(parse, n, text, m) && NoPartRead(parse, n, text)
  }

  ghost predicate AllFramed<M>(parse: NthParser<M>, n: nat, texts: seq<string>, ms: seq<M>) {
    |texts| == |ms| && forall i | 0 <= i < |texts| :: Framed(parse, n + i, texts[i], ms[i])
  }

  /** Nothing is ever taken out of `tail`, however much of it has arrived. */
  predicate Stuck<M>(parse: NthParser<M>, n: nat, tail: string) {
    forall k | 0 < k <= |tail| :: !parse(n, tail[..k]).Ok?
  }

  /** How many of the texts are wholly within the first `length` characters of their concatenation. */
  function Whole(texts: seq<string>, length: nat): (k: nat)
    ensures k <= |texts|
  {
    if texts == [] || |texts[0]| > length then 0 else 1 + Whole(texts[1..], length - |texts[0]|)
  }

  lemma {:induction false} WholeFits(texts: seq<string>, length: nat)
    ensures var k := Whole(texts, length);
            |Concat(texts[..k])| <= length && (k < |texts| ==> length < |Concat(texts[..k])| + |texts[k]|)
  {
    if texts == [] || length < |texts[0]| {
    } else {
      var k := Whole(texts, length);
      WholeFits(texts[1..], length - |texts[0]|);
      assert texts[..k][1..] == texts[1..][..k - 1];
    }
  }

  lemma FramedFrom<M>(parse: NthParser<M>, n: nat, texts: seq<string>, ms: seq<M>, k: nat)
    requires AllFramed(parse, n, texts, ms) && k <= |texts|
    ensures AllFramed(parse, n + k, texts[k..], ms[k..])
  {
    hide Framed;
    forall i | 0 <= i < |texts[k..]| ensures Framed(parse, n + k + i, texts[k..][i], ms[k..][i]) {
      assert Framed(parse, n + (k + i), texts[k + i], ms[k + i]);
    }
  }

  /** One turn of the loop that takes messages out of the buffer. */
  lemma PeelTurn<M>(parse: NthParser<M>, p: Peeled<M>)
    requires Consuming(parse)
    ensures var o := parse(|p.messages|, p.left);
            Receive(parse, p, "")
            == if p.left != "" && o.Ok? then Receive(parse, Peeled(p.messages + [o.value], o.rest), "") else p
  {
    assert p.left + "" == p.left;
    var o := parse(|p.messages|, p.left);
    if p.left == "" || !o.Ok? {
      assert p.messages + [] == p.messages;
    } else {
      assert o.rest + "" == o.rest;
      var rest := Peel(parse, |p.messages| + 1, o.rest);
      assert p.messages + ([o.value] + rest.messages) == p.messages + [o.value] + rest.messages;
    }
  }

  lemma PeelWhole<M>(parse: NthParser<M>, n: nat, text: string, m: M, more: string)
    requires Consuming(parse) && Reads(parse, n, text, m)
    ensures var rest := Peel(parse, n + 1, more);
            Peel(parse, n, text + more) == Peeled([m] + rest.messages, rest.left)
  {
    assert parse(n, text + more) == Ok(m, more);
  }

  lemma PeelPart<M>(parse: NthParser<M>, n: nat, text: string, m: M, part: string)
    requires Consuming(parse) && Framed(parse, n, text, m) && part < text
    ensures Peel(parse, n, part) == Peeled([], part)
  {
    if part != "" {
      assert part == text[..|part|];
      assert !parse(n, text[..|part|]).Ok?;
    }
  }

  lemma PeelStuck<M>(parse: NthParser<M>, n: nat, tail: string, buffer: string)
    requires Consuming(parse) && Stuck(parse, n, tail) && buffer <= tail
    ensures Peel(parse, n, buffer) == Peeled([], buffer)
  {
    assert buffer == tail[..|buffer|];
  }

  /** A part of a stream holds its first message, or is a part of it. */
  lemma FirstOrPart(texts: seq<string>, tail: string, buffer: string)
    requires texts != [] && buffer <= Concat(texts) + tail
    ensures |buffer| < |texts[0]| ==> buffer < texts[0]
    ensures |texts[0]| <= |buffer| ==>
              var rest := buffer[|texts[0]|..];
              buffer == texts[0] + rest && rest <= Concat(texts[1..]) + tail
  {
    var first, others := texts[0], Concat(texts[1..]) + tail;
    assert Concat(texts) + tail == first + others;
    assert buffer == (first + others)[..|buffer|];
    if |buffer| < |first| {
      assert buffer == first[..|buffer|];
    } else {
      assert buffer[|first|..] == others[..|buffer| - |first|];
    }
  }

  /** The messages taken out of a buffer that holds part of a framed stream, or of what is stuck behind it. */
  lemma {:induction false} PeelFramed<M>(
    parse: NthParser<M>, n: nat, texts: seq<string>, ms: seq<M>, tail: string, buffer: string)
    requires Consuming(parse) && AllFramed(parse, n, texts, ms) && Stuck(parse, n + |texts|, tail)
    requires buffer <= Concat(texts) + tail
    ensures var k := Whole(texts, |buffer|);
            |Concat(texts[..k])| <= |buffer|
            && Peel(parse, n, buffer) == Peeled(ms[..k], buffer[|Concat(texts[..k])|..])
    decreases |texts|
  {
    hide Peel, Reads, NoPartRead, Consuming, Stuck, Concat, Whole;
    var k := Whole(texts, |buffer|);
    WholeFits(texts, |buffer|);
    WholeFirst(texts, |buffer|);
    ConcatNothing<char>();
    if texts == [] {
      PeelStuck(parse, n, tail, buffer);
    } else {
      var w := texts[0];
      FirstOrPart(texts, tail, buffer);
      assert Framed(parse, n + 0, w, ms[0]);
      if |w| <= |buffer| {
        var rest := buffer[|w|..];
        FramedFrom(parse, n, texts, ms, 1);
        PeelFramed(parse, n + 1, texts[1..], ms[1..], tail, rest);
        PeelWhole(parse, n, w, ms[0], rest);
        ConcatTakes(texts, k);
        assert ms[..k] == [ms[0]] + ms[1..][..k - 1];
      } else {
        PeelPart(parse, n, w, ms[0], buffer);
      }
    }
  }

  lemma {:induction false} WholeAdds(texts: seq<string>, length: nat, more: nat)
    ensures var k := Whole(texts, length);
            |Concat(texts[..k])| <= length
            && Whole(texts, length + more) == k + Whole(texts[k..], length - |Concat(texts[..k])| + more)
  {
    hide Concat, Whole;
    WholeFits(texts, length);
    WholeFirst(texts, length);
    var k := Whole(texts, length);
    if k > 0 {
      var rest, left := texts[1..], length - |texts[0]|;
      WholeAdds(rest, left, more);
      WholeFirst(texts, length + more);
      ConcatTakes(texts, k);
      assert texts[k..] == rest[k - 1..];
    } else {
      assert texts[..0] == [] && texts[0..] == texts;
      ConcatNothing<char>();
    }
  }

  lemma {:induction false} WholeFirst(texts: seq<string>, length: nat)
    ensures Whole(texts, length) > 0 <==> texts != [] && |texts[0]| <= length
    ensures Whole(texts, length) > 0 ==> Whole(texts, length) == 1 + Whole(texts[1..], length - |texts[0]|)
  {
  }

  /** One segment on top of a state that is right for the bytes before it. */
  lemma ReceiveFramed<M>(
    parse: NthParser<M>, texts: seq<string>, ms: seq<M>, tail: string, bytes: string, segment: string)
    requires Consuming(parse) && AllFramed(parse, 0, texts, ms) && Stuck(parse, |texts|, tail)
    requires bytes + segment <= Concat(texts) + tail
    ensures var k := Whole(texts, |bytes|);
            var k' := Whole(texts, |bytes + segment|);
            |Concat(texts[..k])| <= |bytes| && |Concat(texts[..k'])| <= |bytes + segment|
            && Receive(parse, Peeled(ms[..k], bytes[|Concat(texts[..k])|..]), segment)
               == Peeled(ms[..k'], (bytes + segment)[|Concat(texts[..k'])|..])
  {
    hide AllFramed, Consuming, Stuck, Whole, Peel, Concat;
    var k, k' := Whole(texts, |bytes|), Whole(texts, |bytes + segment|);
    WholeAdds(texts, |bytes|, |segment|);
    var done := |Concat(texts[..k])|;
    var left := bytes[done..] + segment;
    LeftIsPrefix(texts, tail, bytes, segment, k);
    FramedLengths(parse, 0, texts, ms);
    FramedFrom(parse, 0, texts, ms, k);
    PeelFramed(parse, k, texts[k..], ms[k..], tail, left);
    var j := k' - k;
    assert ms[..k] + ms[k..][..j] == ms[..k'];
    assert texts[..k'] == texts[..k] + texts[k..][..j];
    ConcatSplit(texts[..k], texts[k..][..j]);
    assert left[|Concat(texts[k..][..j])|..] == (bytes + segment)[|Concat(texts[..k'])|..];
  }

  lemma FramedLengths<M>(parse: NthParser<M>, n: nat, texts: seq<string>, ms: seq<M>)
    requires AllFramed(parse, n, texts, ms)
    ensures |texts| == |ms|
  {
  }

  /** What is left of the bytes, with the next segment, is a part of what is left of the stream. */
  lemma LeftIsPrefix(texts: seq<string>, tail: string, bytes: string, segment: string, k: nat)
    requires k <= |texts| && |Concat(texts[..k])| <= |bytes| && bytes + segment <= Concat(texts) + tail
    ensures bytes[|Concat(texts[..k])|..] + segment == (bytes + segment)[|Concat(texts[..k])|..]
    ensures bytes[|Concat(texts[..k])|..] + segment <= Concat(texts[k..]) + tail
  {
    hide Concat;
    var done := |Concat(texts[..k])|;
    var left := bytes[done..] + segment;
    assert left == (bytes + segment)[done..];
    assert texts == texts[..k] + texts[k..];
    ConcatSplit(texts[..k], texts[k..]);
    assert (Concat(texts) + tail)[done..] == Concat(texts[k..]) + tail;
    assert left == (Concat(texts) + tail)[done..][..|left|];
  }

  /** What is left is a proper part of the next message, or of what is stuck behind the last. */
  lemma LeftIsPart(texts: seq<string>, tail: string, bytes: string)
    requires bytes <= Concat(texts) + tail
    ensures var k := Whole(texts, |bytes|);
            |Concat(texts[..k])| <= |bytes| &&
            var left := bytes[|Concat(texts[..k])|..];
            if k == |texts| then left <= tail else left < texts[k]
  {
    hide Whole, Concat;
    var k := Whole(texts, |bytes|);
    WholeFits(texts, |bytes|);
    var left := bytes[|Concat(texts[..k])|..];
    assert bytes + "" == bytes && left + "" == left;
    LeftIsPrefix(texts, tail, bytes, "", k);
    if k == |texts| {
      assert texts[k..] == [];
      ConcatNothing<char>();
    } else {
      FirstOrPart(texts[k..], tail, left);
    }
  }

  /**
   Segmentation does not matter. However a framed stream is cut, after any
   number of segments the messages taken are exactly those wholly received, in
   order, and the buffer is exactly the part of the rest received so far. If
   something follows of which no part is ever taken, nothing more is taken.
   */
  lemma {:induction false} SegmentationInvariance<M>(
    parse: NthParser<M>, texts: seq<string>, ms: seq<M>, tail: string, segments: seq<string>)
    requires Consuming(parse) && AllFramed(parse, 0, texts, ms) && Stuck(parse, |texts|, tail)
    requires Concat(segments) <= Concat(texts) + tail
    ensures var bytes := Concat(segments);
            var k := Whole(texts, |bytes|);
            |Concat(texts[..k])| <= |bytes|
            && ReceiveAll(parse, segments) == Peeled(ms[..k], bytes[|Concat(texts[..k])|..])
    decreases |segments|
  {
    hide Reads, NoPartRead, Consuming, Stuck, Concat, Whole, Receive;
    WholeFits(texts, |Concat(segments)|);
    ConcatNothing<char>();
    if segments == [] {
      NothingWhole(parse, 0, texts, ms);
    } else {
      var before := segments[..|segments| - 1];
      ConcatSnoc(segments);
      assert Concat(before) <= Concat(segments);
      SegmentationInvariance(parse, texts, ms, tail, before);
      ReceiveFramed(parse, texts, ms, tail, Concat(before), segments[|segments| - 1]);
    }
  }

  lemma NothingWhole<M>(parse: NthParser<M>, n: nat, texts: seq<string>, ms: seq<M>)
    requires AllFramed(parse, n, texts, ms)
    ensures Whole(texts, 0) == 0
  {
    assert texts != [] ==> Framed(parse, n + 0, texts[0], ms[0]);
  }

  // ------------------------------------------------ and what the condition is for

  ghost predicate AllRead<M>(parse: NthParser<M>, n: nat, texts: seq<string>, ms: seq<M>) {
    |texts| == |ms| && forall i | 0 <= i < |texts| :: Reads(parse, n + i, texts[i], ms[i])
  }

  /** Whole messages at the front of a buffer are taken out first. */
  lemma {:induction false} PeelReads<M>(parse: NthParser<M>, n: nat, texts: seq<string>, ms: seq<M>, more: string)
    requires Consuming(parse) && AllRead(parse, n, texts, ms)
    ensures Peel(parse, n, Concat(texts) + more).messages == ms + Peel(parse, n + |texts|, more).messages
    decreases |texts|
  {
    hide Peel, Reads, Consuming;
    if texts == [] {
      assert Concat(texts) + more == more;
    } else {
      forall i | 0 <= i < |texts[1..]| ensures Reads(parse, n + 1 + i, texts[1..][i], ms[1..][i]) {
        assert Reads(parse, n + (i + 1), texts[i + 1], ms[i + 1]);
      }
      PeelReads(parse, n + 1, texts[1..], ms[1..], more);
      assert Reads(parse, n + 0, texts[0], ms[0]);
      PeelWhole(parse, n, texts[0], ms[0], Concat(texts[1..]) + more);
      assert Concat(texts) + more == texts[0] + (Concat(texts[1..]) + more);
    }
  }

  lemma {:induction false} WholeExactly(texts: seq<string>, i: nat, length: nat)
    requires i < |texts| && |Concat(texts[..i])| <= length < |Concat(texts[..i])| + |texts[i]|
    ensures Whole(texts, length) == i
    decreases i
  {
    hide Concat;
    if i == 0 {
      assert texts[..0] == [];
      ConcatNothing<char>();
    } else {
      ConcatTakes(texts, i);
      WholeExactly(texts[1..], i - 1, length - |texts[0]|);
    }
  }

  /** The messages taken out are those wholly received. */
  ghost predicate Exact<M>(parse: NthParser<M>, texts: seq<string>, ms: seq<M>, segments: seq<string>)
    requires Consuming(parse) && |texts| == |ms|
  {
    ReceiveAll(parse, segments).messages == ms[..Whole(texts, |Concat(segments)|)]
  }

  /** A part that is taken for a message is delivered too early. */
  lemma PartMisread<M>(parse: NthParser<M>, texts: seq<string>, ms: seq<M>, i: nat) returns (segment: string)
    requires Consuming(parse) && AllRead(parse, 0, texts, ms)
    requires i < |texts| && !NoPartRead(parse, i, texts[i])
    ensures segment != "" && segment <= Concat(texts)
    ensures Whole(texts, |segment|) == i && |Peel(parse, 0, segment).messages| > i
  {
    hide Peel, Concat, Whole;
    var k :| 0 < k < |texts[i]| && parse(i, texts[i][..k]).Ok?;
    var part := texts[i][..k];
    var before := Concat(texts[..i]);
    segment := before + part;
    WholeExactly(texts, i, |segment|);
    forall j | 0 <= j < i ensures Reads(parse, 0 + j, texts[..i][j], ms[..i][j]) {
      assert Reads(parse, 0 + j, texts[j], ms[j]);
    }
    PeelReads(parse, 0, texts[..i], ms[..i], part);
    SomePeeled(parse, i, part);
    assert texts == texts[..i] + texts[i..];
    ConcatSplit(texts[..i], texts[i..]);
    FirstOfConcat(texts[i..]);
    assert texts[i] == part + texts[i][k..];
  }

  lemma SomePeeled<M>(parse: NthParser<M>, n: nat, text: string)
    requires Consuming(parse) && text != "" && parse(n, text).Ok?
    ensures Peel(parse, n, text).messages != []
  {
  }

  lemma FirstOfConcat(texts: seq<string>)
    requires texts != []
    ensures texts[0] <= Concat(texts)
  {
  }

  /**
   For messages that are read whatever follows them: every segmentation gives
   exactly those wholly received if and only if no part of any is taken for a
   message.
   */
  lemma SegmentationIff<M>(parse: NthParser<M>, texts: seq<string>, ms: seq<M>)
    requires Consuming(parse) && AllRead(parse, 0, texts, ms)
    ensures (forall segments | Concat(segments) <= Concat(texts) :: Exact(parse, texts, ms, segments))
       <==> forall i | 0 <= i < |texts| :: NoPartRead(parse, i, texts[i])
  {
    hide Reads, NoPartRead, Peel, Whole, Consuming;
    if forall i | 0 <= i < |texts| :: NoPartRead(parse, i, texts[i]) {
      assert AllFramed(parse, 0, texts, ms) by {
        forall i | 0 <= i < |texts| ensures Framed(parse, 0 + i, texts[i], ms[i]) {
          assert Reads(parse, 0 + i, texts[i], ms[i]) && NoPartRead(parse, i, texts[i]);
        }
      }
      forall segments | Concat(segments) <= Concat(texts) ensures Exact(parse, texts, ms, segments) {
        assert Concat(texts) + "" == Concat(texts);
        SegmentationInvariance(parse, texts, ms, "", segments);
      }
    } else {
      var i :| 0 <= i < |texts| && !NoPartRead(parse, i, texts[i]);
      var segment := PartMisread(parse, texts, ms, i);
      ConcatOne(segment);
      OneSegment(parse, segment);
      assert !Exact(parse, texts, ms, [segment]);
    }
  }

  lemma OneSegment<M>(parse: NthParser<M>, segment: string)
    requires Consuming(parse)
    ensures ReceiveAll(parse, [segment]).messages == Peel(parse, 0, segment).messages
  {
    hide Peel;
    assert [segment][..0] == [] && "" + segment == segment;
    var all := Peel(parse, 0, segment).messages;
    assert [] + all == all;
  }
}
