/**
 The chunked codec of the helpers, and the re-chunking the proxy is expected to
 do, related to each other and to the chunked-body reader.
 */
module ChunkedCodec {
  import opened Octets
  import opened Text
  import opened Message
  import opened Grammar
  import opened ChunkedBodies
  import opened Sequences

  // ------------------------------------------------------------ splitting at CRLF

  predicate CrlfAt(s: string, i: nat) {
    i + 1 < |s| && s[i] == '\r' && s[i + 1] == '\n'
  }

  predicate NoCrlf(s: string) {
    forall i | 0 <= i < |s| :: !CrlfAt(s, i)
  }

  function CrlfIndex(s: string): (n: nat)
    ensures n <= |s|
    ensures forall i | 0 <= i < n :: !CrlfAt(s, i)
    ensures n < |s| ==> CrlfAt(s, n)
  {
    if s == "" then 0
    else if CrlfAt(s, 0) then 0
    else
      var n := CrlfIndex(s[1..]);
      assert forall i | 1 <= i < |s| :: CrlfAt(s, i) == CrlfAt(s[1..], i - 1);
      1 + n
  }

  /** `s.split("\r\n")` */
  function SplitCrlf(s: string): seq<string>
    decreases |s|
  {
    var n := CrlfIndex(s);
    if n == |s| then [s] else [s[..n]] + SplitCrlf(s[n + 2..])
  }

  lemma SplitCrlfFirst(x: string, t: string)
    requires NoCrlf(x)
    ensures SplitCrlf(x + "\r\n" + t) == [x] + SplitCrlf(t)
  {
    var s := x + "\r\n" + t;
    forall i | 0 <= i < |x| ensures !CrlfAt(s, i) {
      assert !CrlfAt(x, i);
    }
    assert CrlfAt(s, |x|);
    assert CrlfIndex(s) == |x|;
    assert s[..|x|] == x && s[|x| + 2..] == t;
  }

  lemma SplitCrlfNothing()
    ensures SplitCrlf("") == [""]
  {
  }

  // --------------------------------------------------------------------- encoding

  /** The pieces `encode_chunked` cuts its data into. */
  function Pieces(data: string, k: nat): (cs: seq<string>)
    requires k >= 1
    ensures forall i | 0 <= i < |cs| :: 0 < |cs[i]| <= k
    decreases |data|
  {
    if data == "" then []
    else
      var n := if |data| < k then |data| else k;
      [data[..n]] + Pieces(data[n..], k)
  }

  lemma {:induction false} PiecesJoin(data: string, k: nat)
    requires k >= 1
    ensures Concat(Pieces(data, k)) == data
    decreases |data|
  {
    if data == "" {
    } else {
      var n := if |data| < k then |data| else k;
      PiecesJoin(data[n..], k);
      assert data == data[..n] + data[n..];
    }
  }

  function EncodePieces(cs: seq<string>): string {
    if cs == [] then "0\r\n\r\n"
    else PrintNat(|cs[0]|, 16) + "\r\n" + (cs[0] + "\r\n" + EncodePieces(cs[1..]))
  }

  /** `encode_chunked(data, k)` */
  function EncodeChunked(data: string, k: nat): string
    requires k >= 1
  {
    EncodePieces(Pieces(data, k))
  }

  /** The text before the last chunk, as the loop builds it. */
  function EncodedSoFar(cs: seq<string>): string {
    if cs == [] then ""
    else
      var last := cs[|cs| - 1];
      EncodedSoFar(cs[..|cs| - 1]) + (PrintNat(|last|, 16) + "\r\n") + (last + "\r\n")
  }

  lemma Regroup(a: string, b: string, c: string, d: string)
    ensures a + b + c + d == a + (b + (c + d))
  {
  }

  lemma {:induction false} EncodedSoFarJoins(done: seq<string>, cs: seq<string>)
    ensures EncodedSoFar(done) + EncodePieces(cs) == EncodePieces(done + cs)
    decreases |done|
  {
    if done == [] {
      assert done + cs == cs;
    } else {
      var last := done[|done| - 1];
      var before := done[..|done| - 1];
      var size, text := PrintNat(|last|, 16) + "\r\n", last + "\r\n";
      EncodedSoFarJoins(before, [last] + cs);
      assert before + ([last] + cs) == done + cs;
      assert EncodePieces([last] + cs) == size + (text + EncodePieces(cs)) by { assert ([last] + cs)[1..] == cs; }
      assert EncodedSoFar(done) == EncodedSoFar(before) + size + text;
      hide *;
      Regroup(EncodedSoFar(before), size, text, EncodePieces(cs));
    }
  }

  lemma EncodedOneMore(done: seq<string>, chunk: string)
    ensures EncodedSoFar(done + [chunk]) == EncodedSoFar(done) + (PrintNat(|chunk|, 16) + "\r\n") + (chunk + "\r\n")
  {
    assert (done + [chunk])[..|done|] == done;
  }

  lemma PieceTaken(left: string, k: nat, done: seq<string>)
    requires k >= 1 && left != ""
    ensures var n := if |left| < k then |left| else k;
            done + Pieces(left, k) == done + [left[..n]] + Pieces(left[n..], k)
  {
  }

  /** `encode_chunked`; a chunk size below one would never finish. */
  method EncodeChunkedText(data: Option<string>, chunkSize: nat) returns (result: string)
    requires chunkSize >= 1
    ensures result == if data.None? then "" else EncodeChunked(data.value, chunkSize)
  {
    if data.None? {
      return "";
    }
    hide PrintNat;
    result := "";
    var left := data.value;
    ghost var done: seq<string> := [];
    assert [] + Pieces(left, chunkSize) == Pieces(left, chunkSize);
    while |left| > 0
      invariant result == EncodedSoFar(done)
      invariant done + Pieces(left, chunkSize) == Pieces(data.value, chunkSize)
      decreases |left|
    {
      hide Pieces, EncodedSoFar;
      var n := if |left| < chunkSize then |left| else chunkSize;
      var chunk := left[..n];
      PieceTaken(left, chunkSize, done);
      EncodedOneMore(done, chunk);
      left := left[n..];
      result := result + (PrintNat(|chunk|, 16) + "\r\n");
      result := result + (chunk + "\r\n");
      done := done + [chunk];
    }
    EncodedSoFarJoins(done, []);
    assert done + [] == done;
    result := result + "0\r\n\r\n";
  }

  // --------------------------------------------------------------------- decoding

  /** `decode_chunked` returns a text, falls off its end without one, or raises ValueError. */
  datatype Decoded = Value(text: string) | NoValue | BadSize

  /** `zip(parts[::2], parts[1::2])` */
  function Pairs(parts: seq<string>): seq<(string, string)> {
    if |parts| < 2 then [] else [(parts[0], parts[1])] + Pairs(parts[2..])
  }

  /** `parts[1::2]` */
  function Odd(parts: seq<string>): seq<string> {
    if |parts| < 2 then [] else [parts[1]] + Odd(parts[2..])
  }

  predicate SizesParse(pairs: seq<(string, string)>) {
    forall i | 0 <= i < |pairs| :: ParseInt(pairs[i].0, 16).Some?
  }

  function Collect(pairs: seq<(string, string)>, acc: string): Decoded
    requires SizesParse(pairs)
    decreases |pairs|
  {
    if pairs == [] then NoValue
    else
      var n := ParseInt(pairs[0].0, 16).value;
      if n == 0 then Value(acc)
      else
        assert forall i | 0 <= i < |pairs[1..]| :: pairs[1..][i] == pairs[i + 1];
        Collect(pairs[1..], acc + SliceTo(pairs[0].1, n))
  }

  /** `decode_chunked(data)`: every size is read before the first chunk is used. */
  function DecodeChunked(data: string): Decoded {
    var pairs := Pairs(SplitCrlf(data));
    if SizesParse(pairs) then Collect(pairs, "") else BadSize
  }

  lemma CollectTurn(pairs: seq<(string, string)>, acc: string)
    requires SizesParse(pairs)
    ensures if pairs == [] then Collect(pairs, acc) == NoValue
            else
              var n := ParseInt(pairs[0].0, 16).value;
              if n == 0 then Collect(pairs, acc) == Value(acc)
              else SizesParse(pairs[1..]) && Collect(pairs, acc) == Collect(pairs[1..], acc + SliceTo(pairs[0].1, n))
  {
    hide ParseInt;
  }

  method ParseSizes(pairs: seq<(string, string)>) returns (parsed: bool)
    ensures parsed == SizesParse(pairs)
  {
    hide ParseInt;
    for i := 0 to |pairs|
      invariant forall j | 0 <= j < i :: ParseInt(pairs[j].0, 16).Some?
    {
      if ParseInt(pairs[i].0, 16).None? {
        return false;
      }
    }
    parsed := true;
  }

  method DecodeChunkedText(data: Option<string>) returns (result: Decoded)
    ensures result == if data.None? then Value("") else DecodeChunked(data.value)
  {
    if data.None? {
      return Value("");
    }
    hide ParseInt, Pairs, SplitCrlf, SliceTo, Collect;
    var pairs := Pairs(SplitCrlf(data.value));
    var parsed := ParseSizes(pairs);
    if !parsed {
      return BadSize;
    }
    var text := "";
    assert pairs[0..] == pairs;
    for i := 0 to |pairs|
      invariant SizesParse(pairs[i..])
      invariant Collect(pairs, "") == Collect(pairs[i..], text)
    {
      CollectTurn(pairs[i..], text);
      assert pairs[i..][1..] == pairs[i + 1..];
      var length := ParseInt(pairs[i].0, 16).value;
      if length == 0 {
        return Value(text);
      }
      text := text + SliceTo(pairs[i].1, length);
    }
    CollectTurn(pairs[|pairs|..], text);
    return NoValue;
  }

  // ------------------------------------------------------------------- round trip

  predicate AllNoCrlf(cs: seq<string>) {
    forall i | 0 <= i < |cs| :: NoCrlf(cs[i])
  }

  function SizedPairs(cs: seq<string>): (ps: seq<(string, string)>)
    ensures |ps| == |cs| + 1
    ensures forall i | 0 <= i < |cs| :: ps[i] == (PrintNat(|cs[i]|, 16), cs[i])
    ensures ps[|cs|] == ("0", "")
  {
    if cs == [] then [("0", "")] else [(PrintNat(|cs[0]|, 16), cs[0])] + SizedPairs(cs[1..])
  }

  lemma DigitsHaveNoCrlf(s: string)
    requires AllDigits(s, 16)
    ensures NoCrlf(s)
  {
  }

  function ChunksFor(cs: seq<string>): (r: seq<Chunk>)
    ensures |r| == |cs| && forall i | 0 <= i < |cs| :: r[i] == Chunk(PrintNat(|cs[i]|, 16), "", cs[i])
  {
    if cs == [] then [] else [Chunk(PrintNat(|cs[0]|, 16), "", cs[0])] + ChunksFor(cs[1..])
  }

  const LAST := Chunk("0", "", "")

  lemma {:induction false} EncodedIsWire(cs: seq<string>)
    ensures EncodePieces(cs) == ChunksWire(ChunksFor(cs), SizeLine("0", "") + "\r\n")
  {
    if cs == [] {
      assert SizeLine("0", "") + "\r\n" == "0\r\n\r\n";
    } else {
      EncodedIsWire(cs[1..]);
      var r := ChunksFor(cs);
      assert r[1..] == ChunksFor(cs[1..]);
      assert r[0].size + r[0].ext + "\r\n" == PrintNat(|cs[0]|, 16) + "\r\n";
    }
  }

  /** A size line and a chunk give the next two parts. */
  lemma TwoParts(x: string, y: string, rest: string)
    requires NoCrlf(x) && NoCrlf(y)
    ensures var parts := SplitCrlf(x + "\r\n" + (y + "\r\n" + rest));
            Pairs(parts) == [(x, y)] + Pairs(SplitCrlf(rest)) && Odd(parts) == [y] + Odd(SplitCrlf(rest))
  {
    hide SplitCrlf;
    SplitCrlfFirst(x, y + "\r\n" + rest);
    SplitCrlfFirst(y, rest);
    var more := SplitCrlf(rest);
    var parts := [x] + ([y] + more);
    assert parts[2..] == more;
  }

  /** The last size line and the empty line give the last pair. */
  lemma LastParts(x: string, end: string)
    requires NoCrlf(x) && (end == "" || end == "\r\n")
    ensures Pairs(SplitCrlf(x + "\r\n" + end)) == [(x, "")]
    ensures Odd(SplitCrlf(x + "\r\n" + end)) == [""]
  {
    SplitCrlfFirst(x, end);
    SplitCrlfNothing();
    SplitCrlfFirst("", "");
    assert "" + "\r\n" + "" == "\r\n";
    var parts := [x] + SplitCrlf(end);
    assert parts == [x, ""] || parts == [x, "", ""];
    assert Pairs(parts[2..]) == [] && Odd(parts[2..]) == [];
  }

  lemma {:induction false} EncodedPairs(cs: seq<string>, end: string)
    requires AllNoCrlf(cs) && (end == "" || end == "\r\n")
    ensures Pairs(SplitCrlf(ChunksWire(ChunksFor(cs), SizeLine("0", "") + end))) == SizedPairs(cs)
  {
    hide PrintNat, SplitCrlf;
    if cs == [] {
      LastParts("0", end);
      assert SizeLine("0", "") == "0" + "\r\n";
    } else {
      var c := ChunksFor(cs)[0];
      EncodedPairs(cs[1..], end);
      DigitsHaveNoCrlf(c.size);
      assert NoCrlf(cs[0]);
      assert ChunksFor(cs)[1..] == ChunksFor(cs[1..]) && SizeLine(c.size, c.ext) == c.size + "\r\n";
      TwoParts(c.size, cs[0], ChunksWire(ChunksFor(cs[1..]), SizeLine("0", "") + end));
    }
  }

  lemma {:induction false} CollectSized(cs: seq<string>, acc: string)
    requires forall i | 0 <= i < |cs| :: cs[i] != ""
    ensures SizesParse(SizedPairs(cs))
    ensures Collect(SizedPairs(cs), acc) == Value(acc + Concat(cs))
    decreases |cs|
  {
    hide ParseInt, PrintNat;
    var ps := SizedPairs(cs);
    assert ParseInt("0", 16) == Some(0) by { ParsePrinted(0, 16); assert PrintNat(0, 16) == "0" by { ZeroPrinted(); } }
    forall i | 0 <= i < |ps| ensures ParseInt(ps[i].0, 16).Some? {
      if i < |cs| {
        ParsePrinted(|cs[i]|, 16);
      }
    }
    if cs == [] {
      assert acc + "" == acc;
    } else {
      ParsePrinted(|cs[0]|, 16);
      CollectSized(cs[1..], acc + cs[0]);
      assert ps[1..] == SizedPairs(cs[1..]);
      assert acc + cs[0] + Concat(cs[1..]) == acc + (cs[0] + Concat(cs[1..]));
    }
  }

  lemma ZeroPrinted()
    ensures PrintNat(0, 16) == "0"
  {
  }

  /** Decoding undoes encoding whenever no piece contains CRLF. */
  lemma CodecRoundTrip(data: string, k: nat)
    requires k >= 1 && AllNoCrlf(Pieces(data, k))
    ensures DecodeChunked(EncodeChunked(data, k)) == Value(data)
  {
    hide SizesParse, Collect, PrintNat;
    var cs := Pieces(data, k);
    EncodedIsWire(cs);
    EncodedPairs(cs, "\r\n");
    CollectSized(cs, "");
    PiecesJoin(data, k);
    assert "" + data == data;
  }

  /** With pieces of one character that is every text. */
  lemma CodecRoundTripSingle(data: string)
    ensures DecodeChunked(EncodeChunked(data, 1)) == Value(data)
  {
    CodecRoundTrip(data, 1);
  }

  // ------------------------------------------------- a piece with CRLF is never decoded

  /** What a size and the part after it add to the text; None if the decoder stops there. */
  function Added(size: string, part: string): (r: Option<string>)
    ensures r.Some? ==> r.value <= part
  {
    match ParseInt(size, 16)
    case None => None
    case Some(n) => if n == 0 then None else Some(SliceTo(part, n))
  }

  /** The text taken out of parts, sizes and chunks in turn. */
  function Taken(parts: seq<string>): string {
    if |parts| < 2 then ""
    else
      match Added(parts[0], parts[1])
      case None => ""
      case Some(text) => text + Taken(parts[2..])
  }

  function TakenPairs(pairs: seq<(string, string)>): string {
    if pairs == [] then ""
    else
      match Added(pairs[0].0, pairs[0].1)
      case None => ""
      case Some(text) => text + TakenPairs(pairs[1..])
  }

  lemma {:induction false} TakenByPairs(parts: seq<string>)
    ensures TakenPairs(Pairs(parts)) == Taken(parts)
  {
    hide Added;
    if |parts| < 2 {
    } else {
      TakenByPairs(parts[2..]);
      var pairs := Pairs(parts);
      assert pairs[1..] == Pairs(parts[2..]);
    }
  }

  lemma {:induction false} CollectTakes(pairs: seq<(string, string)>, acc: string)
    requires SizesParse(pairs)
    ensures Collect(pairs, acc).Value? ==> Collect(pairs, acc).text == acc + TakenPairs(pairs)
    decreases |pairs|
  {
    hide ParseInt, SliceTo;
    if pairs == [] {
    } else {
      var n := ParseInt(pairs[0].0, 16).value;
      assert forall i | 0 <= i < |pairs[1..]| :: pairs[1..][i] == pairs[i + 1];
      if n == 0 {
        assert acc + "" == acc;
      } else {
        var text := SliceTo(pairs[0].1, n);
        CollectTakes(pairs[1..], acc + text);
        assert acc + text + TakenPairs(pairs[1..]) == acc + (text + TakenPairs(pairs[1..]));
      }
    }
  }

  lemma TakePair(x: string, y: string, more: seq<string>)
    ensures Taken([x] + ([y] + more)) == match Added(x, y) case None => "" case Some(text) => text + Taken(more)
  {
    assert ([x] + ([y] + more))[2..] == more;
  }

  /** One for each character, and w more for each CRLF; `after` says that a carriage return comes before. */
  function Weight(after: bool, s: string, w: nat): nat
    decreases |s|
  {
    if s == "" then 0
    else 1 + (if after && s[0] == '\n' then w else 0) + Weight(s[0] == '\r', s[1..], w)
  }

  predicate EndsCr(after: bool, s: string) {
    if s == "" then after else s[|s| - 1] == '\r'
  }

  lemma {:induction false} WeightSplit(after: bool, a: string, b: string, w: nat)
    ensures Weight(after, a + b, w) == Weight(after, a, w) + Weight(EndsCr(after, a), b, w)
    decreases |a|
  {
    if a == "" {
      assert a + b == b;
    } else {
      assert (a + b)[1..] == a[1..] + b;
      WeightSplit(a[0] == '\r', a[1..], b, w);
    }
  }

  lemma {:induction false} WeightBounds(after: bool, s: string, w: nat)
    ensures |s| <= Weight(false, s, w) <= Weight(after, s, w) <= Weight(false, s, w) + w
    decreases |s|
  {
    if s == "" {
    } else {
      WeightBounds(s[0] == '\r', s[1..], w);
    }
  }

  lemma WeightPrefix(after: bool, a: string, s: string, w: nat)
    requires a <= s
    ensures Weight(after, a, w) <= Weight(after, s, w)
  {
    assert s == a + s[|a|..];
    WeightSplit(after, a, s[|a|..], w);
  }

  lemma WeightCrlf(after: bool, a: string, b: string, w: nat)
    ensures Weight(after, a + "\r\n" + b, w) == Weight(after, a, w) + 2 + w + Weight(false, b, w)
  {
    assert a + "\r\n" + b == a + ("\r\n" + b);
    WeightSplit(after, a, "\r\n" + b, w);
    var s := "\r\n" + b;
    assert s[1..] == "\n" + b && ("\n" + b)[1..] == b;
  }

  lemma {:induction false} DigitsWeight(after: bool, s: string, w: nat)
    requires AllDigits(s, 16)
    ensures Weight(after, s, w) == |s| && (s != "" ==> !EndsCr(after, s))
    decreases |s|
  {
    if s == "" {
    } else {
      assert IsDigit(s[0], 16) && IsDigit(s[|s| - 1], 16);
      assert forall i | 0 <= i < |s[1..]| :: s[1..][i] == s[i + 1];
      DigitsWeight(false, s[1..], w);
    }
  }

  /** The parts of a text that goes on with `t` after a line end. */
  function PartsOf(text: string, t: string): seq<string> {
    SplitCrlf(text + "\r\n" + t)
  }

  lemma PartsWhole(text: string, t: string)
    requires NoCrlf(text)
    ensures PartsOf(text, t) == [text] + SplitCrlf(t)
  {
    SplitCrlfFirst(text, t);
  }

  lemma PartsCut(text: string, t: string) returns (a: string, b: string)
    requires !NoCrlf(text)
    ensures text == a + "\r\n" + b && NoCrlf(a)
    ensures PartsOf(text, t) == [a] + PartsOf(b, t)
  {
    hide SplitCrlf, NoCrlf;
    a, b := FirstCrlf(text);
    SplitCrlfFirst(a, b + "\r\n" + t);
    RegroupLines(a, b, t);
  }

  lemma FirstCrlf(text: string) returns (a: string, b: string)
    requires !NoCrlf(text)
    ensures text == a + "\r\n" + b && NoCrlf(a)
  {
    var n := CrlfIndex(text);
    a, b := text[..n], text[n + 2..];
    assert forall i | 0 <= i < |a| && CrlfAt(a, i) :: CrlfAt(text, i);
  }

  lemma RegroupLines(a: string, b: string, c: string)
    ensures a + "\r\n" + b + "\r\n" + c == a + "\r\n" + (b + "\r\n" + c)
  {
  }

  /** A CRLF weighs more than any size line has digits. */
  predicate Wide(cs: seq<string>, w: nat) {
    w >= 1 && forall i | 0 <= i < |cs| :: 0 < |cs[i]| && |PrintNat(|cs[i]|, 16)| <= w
  }

  lemma {:induction false} PrintedNoLonger(n: nat)
    requires n > 0
    ensures |PrintNat(n, 16)| <= n
  {
    if n < 16 {
    } else {
      PrintedNoLonger(n / 16);
    }
  }

  /** The size x takes the whole of a text for a chunk. */
  predicate TakesAll(x: string, text: string) {
    var n := ParseInt(x, 16);
    n.Some? && n.value > 0 && n.value >= |text|
  }

  /** A text before pieces, its first part taken as a chunk of size x, weighs no more than it should, or w more. */
  lemma {:induction false} ChunkWeight(x: string, text: string, rest: seq<string>, after: bool, w: nat)
    requires Wide(rest, w)
    ensures var taken := Weight(after, Taken([x] + PartsOf(text, EncodePieces(rest))), w);
            var meant := Weight(after, text + Concat(rest), w);
            && taken <= meant + w
            && (TakesAll(x, text) ==> taken + (if NoCrlf(text) && AllNoCrlf(rest) then 0 else 1) <= meant)
    decreases |rest|, |text| + 2
  {
    hide SplitCrlf, EncodePieces, Taken, NoCrlf, PartsOf, Concat, Weight, ParseInt, EndsCr, AllNoCrlf, Wide;
    var t, data := EncodePieces(rest), Concat(rest);
    assert Weight(after, "", w) == 0 by { NoWeight(after, w); }
    if NoCrlf(text) {
      PartsWhole(text, t);
      TakePair(x, text, SplitCrlf(t));
      if Added(x, text).Some? {
        WholeChunkWeight(Added(x, text).value, text, rest, after, w);
      }
    } else {
      var a, b := PartsCut(text, t);
      TakePair(x, a, PartsOf(b, t));
      assert text + data == a + "\r\n" + (b + data);
      WeightCrlf(after, a, b + data, w);
      if Added(x, a).Some? {
        var p := Added(x, a).value;
        var end := EndsCr(after, p);
        WeightSplit(after, p, Taken(PartsOf(b, t)), w);
        WeightPrefix(after, p, a, w);
        SizeWeight(b, rest, end, w);
        WeightOfRest(b, data, w);
      }
    }
  }

  lemma NoWeight(after: bool, w: nat)
    ensures Weight(after, "", w) == 0
  {
  }

  lemma WeightOfRest(b: string, data: string, w: nat)
    ensures |b| + Weight(false, data, w) <= Weight(false, b + data, w)
  {
    WeightSplit(false, b, data, w);
    WeightBounds(false, b, w);
    WeightBounds(EndsCr(false, b), data, w);
  }

  /** The same when the text is one part and p is taken of it. */
  lemma {:induction false} WholeChunkWeight(p: string, text: string, rest: seq<string>, after: bool, w: nat)
    requires Wide(rest, w) && p <= text
    ensures var taken := Weight(after, p + Taken(SplitCrlf(EncodePieces(rest))), w);
            var meant := Weight(after, text + Concat(rest), w);
            && taken <= meant + w
            && (p == text ==> taken + (if AllNoCrlf(rest) then 0 else 1) <= meant)
    decreases |rest|, 1
  {
    hide SplitCrlf, EncodePieces, Taken, Concat, Weight, EndsCr, AllNoCrlf, Wide;
    var data := Concat(rest);
    WeightSplit(after, p, Taken(SplitCrlf(EncodePieces(rest))), w);
    WeightSplit(after, text, data, w);
    WeightPrefix(after, p, text, w);
    AlignedWeight(rest, EndsCr(after, p), w);
    WeightBounds(EndsCr(after, p), data, w);
    WeightBounds(EndsCr(after, text), data, w);
  }

  /** A text before pieces, its first part taken as a size. */
  lemma {:induction false} SizeWeight(text: string, rest: seq<string>, after: bool, w: nat)
    requires Wide(rest, w)
    ensures Weight(after, Taken(PartsOf(text, EncodePieces(rest))), w)
         <= if NoCrlf(text) then Weight(false, Concat(rest), w) + w
            else Weight(false, text + Concat(rest), w) + if after then w else 0
    decreases |rest|, |text| + 2
  {
    hide SplitCrlf, EncodePieces, Taken, NoCrlf, PartsOf, Concat, Weight, ParseInt, AllNoCrlf, Wide;
    var t, data := EncodePieces(rest), Concat(rest);
    if NoCrlf(text) {
      PartsWhole(text, t);
      MisalignedWeight(text, rest, after, w);
    } else {
      var a, b := PartsCut(text, t);
      ChunkWeight(a, b, rest, after, w);
      assert text + data == a + "\r\n" + (b + data);
      WeightCrlf(false, a, b + data, w);
      WeightBounds(after, b + data, w);
    }
  }

  /** Pieces whose first size line is taken as a chunk. */
  lemma {:induction false} MisalignedWeight(x: string, cs: seq<string>, after: bool, w: nat)
    requires Wide(cs, w)
    ensures Weight(after, Taken([x] + SplitCrlf(EncodePieces(cs))), w) <= Weight(false, Concat(cs), w) + w
    decreases |cs|, 0
  {
    if cs == [] {
      EndMisaligned(x, after, w);
    } else {
      hide SplitCrlf, Taken, NoCrlf, PrintNat, Weight, ParseInt;
      var size := PrintNat(|cs[0]|, 16);
      var t, data := EncodePieces(cs[1..]), Concat(cs[1..]);
      DigitsHaveNoCrlf(size);
      SplitCrlfFirst(size, cs[0] + "\r\n" + t);
      TakePair(x, size, PartsOf(cs[0], t));
      NoWeight(after, w);
      if Added(x, size).Some? {
        var p := Added(x, size).value;
        WeightSplit(after, p, Taken(PartsOf(cs[0], t)), w);
        assert forall i | 0 <= i < |p| :: p[i] == size[i];
        DigitsWeight(after, p, w);
        PrintedNoLonger(|cs[0]|);
        SizeWeight(cs[0], cs[1..], EndsCr(after, p), w);
        WeightOfRest(cs[0], data, w);
      }
    }
  }

  lemma EndMisaligned(x: string, after: bool, w: nat)
    requires w >= 1
    ensures Weight(after, Taken([x] + SplitCrlf(EncodePieces([]))), w) <= w
  {
    hide SplitCrlf, Weight, ParseInt, Taken;
    EndParts();
    var end := ["", ""];
    assert ["0", "", ""] == ["0"] + end;
    TakePair(x, "0", end);
    NothingTaken();
    NoWeight(after, w);
    if Added(x, "0").Some? {
      var p := Added(x, "0").value;
      assert p + "" == p && (p == "" || p == "0");
      assert AllDigits("0", 16) && AllDigits("", 16);
      DigitsWeight(after, p, w);
    }
  }

  lemma NothingTaken()
    ensures Taken(["", ""]) == ""
  {
    assert ParseInt("", 16) == None;
  }

  lemma EndParts()
    ensures SplitCrlf(EncodePieces([])) == ["0", "", ""]
  {
    hide SplitCrlf;
    SplitCrlfFirst("0", "\r\n");
    SplitCrlfFirst("", "");
    SplitCrlfNothing();
    assert "" + "\r\n" + "" == "\r\n" && "0" + "\r\n" + "\r\n" == "0\r\n\r\n";
  }

  /** Pieces taken as they were meant weigh no more than their data, and less if one has CRLF in it. */
  lemma {:induction false} AlignedWeight(cs: seq<string>, after: bool, w: nat)
    requires Wide(cs, w)
    ensures Weight(after, Taken(SplitCrlf(EncodePieces(cs))), w) + (if AllNoCrlf(cs) then 0 else 1)
         <= Weight(after, Concat(cs), w)
    decreases |cs|, 0
  {
    if cs == [] {
      EndAligned();
    } else {
      hide SplitCrlf, Taken, NoCrlf, PrintNat, Weight, ParseInt, AllNoCrlf;
      var size := PrintNat(|cs[0]|, 16);
      var t := EncodePieces(cs[1..]);
      DigitsHaveNoCrlf(size);
      SplitCrlfFirst(size, cs[0] + "\r\n" + t);
      ParsePrinted(|cs[0]|, 16);
      ChunkWeight(size, cs[0], cs[1..], after, w);
      CleanCons(cs);
    }
  }

  lemma EndAligned()
    ensures Taken(SplitCrlf(EncodePieces([]))) == ""
  {
    hide SplitCrlf, ParseInt;
    EndParts();
    ParsePrinted(0, 16);
    ZeroPrinted();
  }

  lemma CleanCons(cs: seq<string>)
    requires cs != []
    ensures AllNoCrlf(cs) <==> NoCrlf(cs[0]) && AllNoCrlf(cs[1..])
  {
    hide NoCrlf;
    assert forall i | 0 < i < |cs| :: cs[i] == cs[1..][i - 1];
    assert forall i | 0 <= i < |cs[1..]| :: cs[1..][i] == cs[i + 1];
  }

  /**
   Decoding undoes encoding exactly when no piece contains CRLF, for every text
   and every chunk size. Otherwise the decoder finds a size that is none, stops
   without a result, or takes a text with fewer CRLFs or fewer characters.
   */
  lemma CodecRoundTripIff(data: string, k: nat)
    requires k >= 1
    ensures DecodeChunked(EncodeChunked(data, k)) == Value(data) <==> AllNoCrlf(Pieces(data, k))
  {
    hide SplitCrlf, Collect, SizesParse, AllNoCrlf, EncodePieces, Taken, Weight;
    var cs := Pieces(data, k);
    if AllNoCrlf(cs) {
      CodecRoundTrip(data, k);
    } else {
      PiecesJoin(data, k);
      PiecesWide(data, k);
      var parts := SplitCrlf(EncodePieces(cs));
      AlignedWeight(cs, false, |data| + 1);
      if SizesParse(Pairs(parts)) {
        CollectTakes(Pairs(parts), "");
        TakenByPairs(parts);
        assert "" + Taken(parts) == Taken(parts);
      }
    }
  }

  lemma PiecesWide(data: string, k: nat)
    requires k >= 1
    ensures Wide(Pieces(data, k), |data| + 1)
  {
    hide PrintNat;
    var cs := Pieces(data, k);
    PiecesShort(data, k);
    forall i | 0 <= i < |cs| ensures |PrintNat(|cs[i]|, 16)| <= |data| + 1 {
      PrintedNoLonger(|cs[i]|);
    }
  }

  lemma {:induction false} PiecesShort(data: string, k: nat)
    requires k >= 1
    ensures forall i | 0 <= i < |Pieces(data, k)| :: |Pieces(data, k)[i]| <= |data|
    decreases |data|
  {
    if data == "" {
    } else {
      var n := if |data| < k then |data| else k;
      PiecesShort(data[n..], k);
    }
  }

  /** A piece that does contain CRLF is not always decoded to itself. */
  lemma CodecLosesCrlf()
    ensures DecodeChunked(EncodeChunked("\r\n", 2)) == BadSize
  {
    hide SplitCrlf;
    assert Pieces("\r\n", 2) == ["\r\n"] by { assert "\r\n"[..2] == "\r\n" && "\r\n"[2..] == ""; }
    assert PrintNat(2, 16) == "2" && ["\r\n"][1..] == [];
    var tail := "" + "\r\n" + ("0" + "\r\n" + "\r\n");
    assert EncodePieces(["\r\n"]) == "2" + "\r\n" + ("" + "\r\n" + tail);
    TwoParts("2", "", tail);
    TwoParts("", "0", "\r\n");
    var pairs := Pairs(SplitCrlf("2" + "\r\n" + ("" + "\r\n" + tail)));
    assert pairs[1] == ("", "0");
    assert ParseInt(pairs[1].0, 16) == None;
  }

  // -------------------------------------------------------- with the body reader

  lemma ChunksForValid(cs: seq<string>)
    requires forall i | 0 <= i < |cs| :: ReadablePayload(cs[i])
    ensures ValidChunks(ChunksFor(cs)) && ValidLast(LAST)
  {
    forall i | 0 <= i < |cs| ensures ValidChunk(ChunksFor(cs)[i]) {
      NumberOfPrinted(|cs[i]|, 16);
    }
    NumberOfPrinted(0, 16);
    ZeroPrinted();
  }

  /**
   The body reader accepts what the helper encodes, whatever follows it, stops
   exactly at its end and keeps it unchanged, if every piece is readable.
   */
  lemma EncodedBodyRead(data: string, k: nat, t: string)
    requires k >= 1 && forall c | c in Pieces(data, k) :: ReadablePayload(c)
    ensures ReadChunkedBody(EncodeChunked(data, k) + t) == Ok(Body(EncodeChunked(data, k), []), t)
  {
    hide ReadChunkedBody, ValidChunks, ValidLast, PrintNat, ReadablePayload;
    var cs := Pieces(data, k);
    var b := Chunks(ChunksFor(cs), LAST, []);
    ChunksForValid(cs);
    EncodedIsWire(cs);
    ChunkedBodyRead(b, t);
    ContentAppend([], b, "", t);
    assert "" + t == t && "\r\n" + "" == "\r\n";
  }

  lemma {:induction false} PiecesWithoutEol(data: string, k: nat)
    requires k >= 1 && NoneOf(IsEol, data)
    ensures forall c | c in Pieces(data, k) :: ReadablePayload(c) && NoCrlf(c)
    decreases |data|
  {
    if data == "" {
    } else {
      var n := if |data| < k then |data| else k;
      assert forall i | 0 <= i < |data[n..]| :: data[n..][i] == data[n + i];
      assert forall i | 0 <= i < n :: data[..n][i] == data[i];
      PiecesWithoutEol(data[n..], k);
    }
  }

  /** Data without line ends goes through both ways, for every chunk size. */
  lemma EncodedPlainData(data: string, k: nat, t: string)
    requires k >= 1 && NoneOf(IsEol, data)
    ensures DecodeChunked(EncodeChunked(data, k)) == Value(data)
    ensures ReadChunkedBody(EncodeChunked(data, k) + t) == Ok(Body(EncodeChunked(data, k), []), t)
  {
    hide DecodeChunked, EncodeChunked, ReadChunkedBody, ReadablePayload, NoCrlf;
    PiecesWithoutEol(data, k);
    CodecRoundTrip(data, k);
    EncodedBodyRead(data, k, t);
  }

  // ------------------------------------------------------------------ re-chunking

  /** `convert_chunked_body` applied to a stored body */
  function ConvertChunkedBody(body: string, http2: bool, methodIsHead: bool): string {
    var payload := Concat(Odd(SplitCrlf(body)));
    if http2 || methodIsHead then payload else SingleChunk(payload)
  }

  function SingleChunk(payload: string): string {
    (if payload == "" then "" else PrintNat(|payload|, 16) + "\r\n" + (payload + "\r\n")) + "0\r\n"
  }

  predicate PlainChunk(c: Chunk) {
    NoCrlf(c.size + c.ext) && NoCrlf(c.data)
  }

  lemma {:induction false} OddOfChunks(cs: seq<Chunk>, t: string)
    requires forall i | 0 <= i < |cs| :: PlainChunk(cs[i])
    ensures Concat(Odd(SplitCrlf(ChunksWire(cs, t)))) == Payload(cs) + Concat(Odd(SplitCrlf(t)))
  {
    hide SplitCrlf, Odd;
    if cs == [] {
      assert "" + Concat(Odd(SplitCrlf(t))) == Concat(Odd(SplitCrlf(t)));
    } else {
      var c := cs[0];
      var rest := ChunksWire(cs[1..], t);
      OddOfChunks(cs[1..], t);
      TwoParts(c.size + c.ext, c.data, rest);
      ConcatSplit([c.data], Odd(SplitCrlf(rest)));
      assert Concat([c.data]) == c.data + Concat<char>([]);
      assert c.data + Payload(cs[1..]) + Concat(Odd(SplitCrlf(t)))
          == c.data + (Payload(cs[1..]) + Concat(Odd(SplitCrlf(t))));
    }
  }

  /**
   Re-chunking is canonical: whatever the sizes, extensions and trailers a body
   came with, an HTTP/2 message gets the bare payload and any other one single
   chunk that depends on the payload alone.
   */
  lemma RechunkCanonical(b: WireBody, http2: bool, methodIsHead: bool)
    requires b.Chunks? && PlainChunk(b.last) && forall i | 0 <= i < |b.chunks| :: PlainChunk(b.chunks[i])
    ensures var payload := Payload(b.chunks);
            ConvertChunkedBody(BodyMeaning(b).text, http2, methodIsHead)
            == if http2 || methodIsHead then payload else SingleChunk(payload)
  {
    hide Odd, SplitCrlf, PrintNat;
    var end := if b.trailer == [] then "\r\n" else "";
    var line := b.last.size + b.last.ext;
    OddOfChunks(b.chunks, SizeLine(b.last.size, b.last.ext) + end);
    LastParts(line, end);
    assert Concat([""]) == "" + Concat<char>([]);
    assert Payload(b.chunks) + "" == Payload(b.chunks);
  }

  /** The single chunk is the encoder's own output for a chunk size no smaller than the payload. */
  lemma SingleChunkIsEncoded(d: string)
    ensures SingleChunk(d) + "\r\n" == EncodeChunked(d, if d == "" then 1 else |d|)
  {
    hide PrintNat;
    var k := if d == "" then 1 else |d|;
    if d == "" {
      assert "" + "0\r\n" + "\r\n" == "0\r\n\r\n";
    } else {
      assert d[..|d|] == d && d[|d|..] == "";
      assert Pieces("", k) == [];
      assert Pieces(d, k) == [d] + Pieces("", k);
      assert [d][1..] == [] && EncodePieces([]) == "0\r\n\r\n";
      var size := PrintNat(|d|, 16) + "\r\n";
      assert size + (d + "\r\n") + "0\r\n" + "\r\n" == size + (d + "\r\n" + "0\r\n\r\n");
    }
  }

  function OnePiece(d: string): seq<string> {
    if d == "" then [] else [d]
  }

  lemma SingleChunkIsWire(d: string)
    ensures SingleChunk(d) == ChunksWire(ChunksFor(OnePiece(d)), SizeLine("0", "") + "")
    ensures Concat(OnePiece(d)) == d && Payload(ChunksFor(OnePiece(d))) == d
  {
    hide PrintNat;
    var end := SizeLine("0", "") + "";
    assert end == "0\r\n";
    if d == "" {
      assert "" + end == end;
    } else {
      var cs := ChunksFor([d]);
      var size := PrintNat(|d|, 16) + "\r\n";
      assert [d][1..] == [] && cs[1..] == [];
      assert SizeLine(cs[0].size, cs[0].ext) == size;
      assert ChunksWire(cs, end) == size + (d + "\r\n" + ChunksWire(cs[1..], end));
      assert size + (d + "\r\n") + end == size + (d + "\r\n" + end);
      assert Payload(cs) == d + Payload(cs[1..]);
    }
  }

  /** The canonical form of CRLF-free data is its own canonical form, and decodes to the data. */
  lemma SingleChunkStable(d: string)
    requires NoCrlf(d)
    ensures ConvertChunkedBody(SingleChunk(d), false, false) == SingleChunk(d)
    ensures DecodeChunked(SingleChunk(d)) == Value(d)
  {
    hide SplitCrlf, PrintNat, Odd, Pairs, SizesParse, Collect, SingleChunk, NoCrlf;
    var cs := OnePiece(d);
    SingleChunkIsWire(d);
    EncodedPairs(cs, "");
    CollectSized(cs, "");
    SingleOdd(d);
    assert "" + d == d;
  }

  lemma SingleOdd(d: string)
    requires NoCrlf(d)
    ensures Concat(Odd(SplitCrlf(SingleChunk(d)))) == d
  {
    hide SplitCrlf, PrintNat, Odd, SingleChunk, ChunksWire, Payload;
    var chunks := ChunksFor(OnePiece(d));
    SingleChunkIsWire(d);
    forall i | 0 <= i < |chunks| ensures PlainChunk(chunks[i]) {
      DigitsHaveNoCrlf(chunks[i].size);
      assert chunks[i].size + "" == chunks[i].size;
    }
    OddOfChunks(chunks, SizeLine("0", "") + "");
    LastParts("0", "");
    assert Concat([""]) == "" + Concat<char>([]);
    assert SizeLine("0", "") + "" == "0" + "\r\n" + "" && d + "" == d;
  }
}
