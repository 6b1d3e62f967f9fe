/**
 The search for header bytes in received HTTP/2 data, which may be split over
 CONTINUATION frames: where a byte differs, the search skips a frame header.
 */
module HeaderSearch {
  import opened Octets

  datatype Result = Found | NotFound | IndexError

  const CONTINUATION: Byte := 9

  const FRAME_HEADER := 9

  /** The length a frame header at p declares, most significant byte first. */
  function DeclaredLength(buf: Bytes, p: nat): nat
    requires p + 3 <= |buf|
  {
    var high: int, middle: int, low: int := buf[p], buf[p + 1], buf[p + 2];
    high * 65536 + middle * 256 + low
  }

  function Min(a: nat, b: nat): nat {
    if a < b then a else b
  }

  /** Compares n bytes of the header with the buffer at p. */
  function SameBytes(buf: Bytes, p: nat, header: Bytes, n: nat): Result
    requires n <= |header|
    decreases n
  {
    if n == 0 then Found
    else if p >= |buf| then IndexError
    else if buf[p] != header[0] then NotFound
    else SameBytes(buf, p + 1, header[1..], n - 1)
  }

  function Ahead(buf: Bytes, p: nat): nat {
    if p < |buf| then |buf| - p else 0
  }

  /** The loop from one start position: `header` is what is still to be found, from p on. */
  function Scan(buf: Bytes, p: nat, header: Bytes): Result
    decreases Ahead(buf, p), |header|
  {
    if header == [] then Found
    else if p >= |buf| then IndexError
    else if buf[p] == header[0] then Scan(buf, p + 1, header[1..])
    else if p + 3 >= |buf| then IndexError
    else if buf[p + 3] != CONTINUATION then NotFound
    else
      var n := Min(DeclaredLength(buf, p), |header|);
      match SameBytes(buf, p + FRAME_HEADER, header, n)
      case Found => Scan(buf, p + FRAME_HEADER + n, header[n..])
      case other => other
  }

  /** The starts from b on, as long as the header would fit. */
  function SearchFrom(buf: Bytes, header: Bytes, b: nat): Result
    requires header != []
    decreases |buf| + 1 - |header| - b
  {
    if b + |header| > |buf| then NotFound
    else if buf[b] != header[0] then SearchFrom(buf, header, b + 1)
    else
      match Scan(buf, b, header)
      case Found => Found
      case NotFound => SearchFrom(buf, header, b + 1)
      case IndexError => IndexError
  }

  /** `check_header_presence_in_last_response_buffer` */
  function Search(buf: Bytes, header: Bytes): Result {
    if header == [] then Found else SearchFrom(buf, header, 0)
  }

  method CheckHeaderPresence(buf: Bytes, header: Bytes) returns (result: Result)
    ensures result == Search(buf, header)
  {
    if |header| == 0 {
      return Found;
    }
    if |header| > |buf| {
      return NotFound;
    }
    for bpos := 0 to |buf| - |header| + 1
      invariant Search(buf, header) == SearchFrom(buf, header, bpos)
    {
      if buf[bpos] == header[0] {
        var scanned := ScanAt(buf, bpos, header);
        if scanned != NotFound {
          return scanned;
        }
      }
    }
    result := NotFound;
  }

  /** The `for` loop: the part of the header behind a frame header. */
  method MatchPart(buf: Bytes, at: nat, header: Bytes, hpos: nat, part: nat) returns (result: Result)
    requires hpos + part <= |header|
    ensures result == SameBytes(buf, at, header[hpos..], part)
  {
    for t := 0 to part
      invariant SameBytes(buf, at, header[hpos..], part) == SameBytes(buf, at + t, header[hpos + t..], part - t)
    {
      assert header[hpos + t..][1..] == header[hpos + t + 1..];
      if at + t >= |buf| {
        return IndexError;
      }
      if buf[at + t] != header[hpos + t] {
        return NotFound;
      }
    }
    result := Found;
  }

  /** The `while` loop. */
  method ScanAt(buf: Bytes, bpos: nat, header: Bytes) returns (result: Result)
    ensures result == Scan(buf, bpos, header)
  {
    hide SameBytes, DeclaredLength;
    var hpos, skip := 0, 0;
    assert header[0..] == header;
    while hpos < |header|
      invariant 0 <= hpos <= |header| && 0 <= skip
      invariant Scan(buf, bpos, header) == Scan(buf, bpos + hpos + skip, header[hpos..])
      decreases Ahead(buf, bpos + hpos + skip), |header| - hpos
    {
      var p := bpos + hpos + skip;
      if p >= |buf| {
        return IndexError;
      }
      if buf[p] != header[hpos] {
        if p + 3 >= |buf| {
          return IndexError;
        }
        if buf[p + 3] != CONTINUATION {
          return NotFound;
        }
        var part := Min(DeclaredLength(buf, p), |header| - hpos);
        skip := skip + FRAME_HEADER;
        var matched := MatchPart(buf, bpos + hpos + skip, header, hpos, part);
        if matched != Found {
          return matched;
        }
        assert header[hpos..][part..] == header[hpos + part..];
        hpos := hpos + part;
      } else {
        assert header[hpos..][1..] == header[hpos + 1..];
        hpos := hpos + 1;
      }
    }
    result := Found;
  }

  // ------------------------------------------------------------------------- soundness

  /** How header bytes lie in a buffer: one by one, or behind a skipped frame header. */
  datatype Layout = End | Plain(next: Layout) | Skipped(n: nat, next: Layout)

  /**
   `header` lies in the buffer from p on: nothing is between its bytes but
   9-byte blocks with the CONTINUATION type, each followed by as many of its
   bytes as the block declares, or all that are left.
   */
  predicate Lies(buf: Bytes, p: nat, header: Bytes, layout: Layout)
    decreases layout
  {
    match layout
    case End => header == []
    case Plain(next) => header != [] && p < |buf| && buf[p] == header[0] && Lies(buf, p + 1, header[1..], next)
    case Skipped(n, next) =>
      && header != [] && p + FRAME_HEADER + n <= |buf| && buf[p + 3] == CONTINUATION
      && n == Min(DeclaredLength(buf, p), |header|)
      && buf[p + FRAME_HEADER..p + FRAME_HEADER + n] == header[..n]
      && Lies(buf, p + FRAME_HEADER + n, header[n..], next)
  }

  /** Blocks are skipped only where the byte at hand is not the one looked for. */
  predicate Eager(buf: Bytes, p: nat, header: Bytes, layout: Layout)
    decreases layout
  {
    match layout
    case End => true
    case Plain(next) => header != [] ==> Eager(buf, p + 1, header[1..], next)
    case Skipped(n, next) =>
      p < |buf| && n <= |header| && header != [] ==>
        buf[p] != header[0] && Eager(buf, p + FRAME_HEADER + n, header[n..], next)
  }

  predicate LiesEagerly(buf: Bytes, p: nat, header: Bytes, layout: Layout) {
    Lies(buf, p, header, layout) && Eager(buf, p, header, layout)
  }

  lemma {:induction false} SameBytesMeans(buf: Bytes, p: nat, header: Bytes, n: nat)
    requires n <= |header| && SameBytes(buf, p, header, n) == Found && n > 0
    ensures p + n <= |buf| && buf[p..p + n] == header[..n]
    decreases n
  {
    if n > 1 {
      SameBytesMeans(buf, p + 1, header[1..], n - 1);
      assert buf[p..p + n] == [buf[p]] + buf[p + 1..p + n];
      assert header[..n] == [header[0]] + header[1..][..n - 1];
    } else {
      assert buf[p..p + 1] == [buf[p]] && header[..1] == [header[0]];
    }
  }

  lemma {:induction false} ScanSound(buf: Bytes, p: nat, header: Bytes) returns (layout: Layout)
    requires Scan(buf, p, header) == Found
    ensures Lies(buf, p, header, layout) && Eager(buf, p, header, layout)
    decreases Ahead(buf, p), |header|
  {
    if header == [] {
      layout := End;
    } else if buf[p] == header[0] {
      var next := ScanSound(buf, p + 1, header[1..]);
      layout := Plain(next);
    } else {
      var n := Min(DeclaredLength(buf, p), |header|);
      var next := ScanSound(buf, p + FRAME_HEADER + n, header[n..]);
      if n > 0 {
        SameBytesMeans(buf, p + FRAME_HEADER, header, n);
      } else {
        assert header[0..] == header && p + FRAME_HEADER < |buf|;
        assert buf[p + FRAME_HEADER..p + FRAME_HEADER] == [] && header[..0] == [];
      }
      layout := Skipped(n, next);
    }
  }

  lemma {:induction false} MeansSameBytes(buf: Bytes, p: nat, header: Bytes, n: nat)
    requires n <= |header| && p + n <= |buf| && buf[p..p + n] == header[..n]
    ensures SameBytes(buf, p, header, n) == Found
    decreases n
  {
    if n == 0 {
    } else {
      assert buf[p] == buf[p..p + n][0] == header[..n][0] == header[0];
      assert buf[p + 1..p + n] == buf[p..p + n][1..] == header[..n][1..] == header[1..][..n - 1];
      MeansSameBytes(buf, p + 1, header[1..], n - 1);
    }
  }

  lemma {:induction false} ScanComplete(buf: Bytes, p: nat, header: Bytes, layout: Layout)
    requires Lies(buf, p, header, layout) && Eager(buf, p, header, layout)
    ensures Scan(buf, p, header) == Found
    decreases layout
  {
    match layout {
      case End =>
      case Plain(next) =>
        ScanComplete(buf, p + 1, header[1..], next);
      case Skipped(n, next) =>
        MeansSameBytes(buf, p + FRAME_HEADER, header, n);
        ScanComplete(buf, p + FRAME_HEADER + n, header[n..], next);
    }
  }

  /** From one start, the search succeeds exactly if the header lies there eagerly. */
  lemma ScanIff(buf: Bytes, p: nat, header: Bytes)
    ensures Scan(buf, p, header) == Found <==> exists layout :: LiesEagerly(buf, p, header, layout)
  {
    if Scan(buf, p, header) == Found {
      var layout := ScanSound(buf, p, header);
      assert LiesEagerly(buf, p, header, layout);
    }
    if exists layout :: LiesEagerly(buf, p, header, layout) {
      var layout :| LiesEagerly(buf, p, header, layout);
      ScanComplete(buf, p, header, layout);
    }
  }

  // --------------------------------------------------- the search, success and failure

  /** A block at p, to be skipped, whose matching bytes are cut by the end of the buffer. */
  predicate CutBlock(buf: Bytes, p: nat, header: Bytes)
    requires header != [] && p + 3 < |buf|
  {
    var n := Min(DeclaredLength(buf, p), |header|);
    && buf[p + 3] == CONTINUATION && p + FRAME_HEADER + n > |buf|
    && forall i | 0 <= i < n && p + FRAME_HEADER + i < |buf| :: buf[p + FRAME_HEADER + i] == header[i]
  }

  /**
   A part of the header lies as the layout says, and then the buffer ends: right
   there, less than four bytes after a differing one, or within a block.
   */
  predicate RunsOff(buf: Bytes, p: nat, header: Bytes, layout: Layout)
    decreases layout
  {
    match layout
    case End =>
      && header != []
      && (p >= |buf| || (buf[p] != header[0] && (p + 3 >= |buf| || CutBlock(buf, p, header))))
    case Plain(next) => header != [] && p < |buf| && buf[p] == header[0] && RunsOff(buf, p + 1, header[1..], next)
    case Skipped(n, next) =>
      && header != [] && p + FRAME_HEADER + n <= |buf| && buf[p] != header[0] && buf[p + 3] == CONTINUATION
      && n == Min(DeclaredLength(buf, p), |header|)
      && buf[p + FRAME_HEADER..p + FRAME_HEADER + n] == header[..n]
      && RunsOff(buf, p + FRAME_HEADER + n, header[n..], next)
  }

  /** The comparison of n bytes runs past the end exactly when those that are there match. */
  lemma {:induction false} SameBytesCut(buf: Bytes, p: nat, header: Bytes, n: nat)
    requires n <= |header|
    ensures SameBytes(buf, p, header, n) == IndexError
       <==> n > 0 && p + n > |buf| && forall i | 0 <= i < n && p + i < |buf| :: buf[p + i] == header[i]
    decreases n
  {
    if n == 0 || p >= |buf| {
    } else {
      SameBytesCut(buf, p + 1, header[1..], n - 1);
      assert forall i | 0 < i < n && p + i < |buf| ::
          buf[p + i] == buf[p + 1 + (i - 1)] && header[i] == header[1..][i - 1];
      assert forall i | 0 <= i < n - 1 && p + 1 + i < |buf| ::
          buf[p + 1 + i] == buf[p + (i + 1)] && header[1..][i] == header[i + 1];
    }
  }

  lemma {:induction false} ScanRaises(buf: Bytes, p: nat, header: Bytes) returns (layout: Layout)
    requires Scan(buf, p, header) == IndexError
    ensures RunsOff(buf, p, header, layout)
    decreases Ahead(buf, p), |header|
  {
    layout := End;
    if p >= |buf| {
    } else if buf[p] == header[0] {
      var next := ScanRaises(buf, p + 1, header[1..]);
      layout := Plain(next);
    } else if p + 3 < |buf| {
      var n := Min(DeclaredLength(buf, p), |header|);
      SameBytesCut(buf, p + FRAME_HEADER, header, n);
      if SameBytes(buf, p + FRAME_HEADER, header, n) == Found {
        var next := ScanRaises(buf, p + FRAME_HEADER + n, header[n..]);
        BlockMatches(buf, p, header, n);
        if p + FRAME_HEADER + n <= |buf| {
          layout := Skipped(n, next);
        }
      }
    }
  }

  lemma BlockMatches(buf: Bytes, p: nat, header: Bytes, n: nat)
    requires n <= |header| && SameBytes(buf, p + FRAME_HEADER, header, n) == Found
    ensures n == 0 || p + FRAME_HEADER + n <= |buf|
    ensures p + FRAME_HEADER + n <= |buf| ==> buf[p + FRAME_HEADER..p + FRAME_HEADER + n] == header[..n]
  {
    if n > 0 {
      SameBytesMeans(buf, p + FRAME_HEADER, header, n);
    }
  }

  lemma {:induction false} RaisesScan(buf: Bytes, p: nat, header: Bytes, layout: Layout)
    requires RunsOff(buf, p, header, layout)
    ensures Scan(buf, p, header) == IndexError
    decreases layout
  {
    match layout {
      case End =>
        if p + 3 < |buf| && buf[p] != header[0] {
          var n := Min(DeclaredLength(buf, p), |header|);
          SameBytesCut(buf, p + FRAME_HEADER, header, n);
          assert header[0..] == header;
        }
      case Plain(next) =>
        RaisesScan(buf, p + 1, header[1..], next);
      case Skipped(n, next) =>
        MeansSameBytes(buf, p + FRAME_HEADER, header, n);
        RaisesScan(buf, p + FRAME_HEADER + n, header[n..], next);
    }
  }

  /** From a start that is tried, with the header's first byte there, the header is found. */
  ghost predicate FoundAt(buf: Bytes, header: Bytes, at: nat) {
    at + |header| <= |buf| && exists layout: Layout :: layout.Plain? && LiesEagerly(buf, at, header, layout)
  }

  /** From a start that is tried, with the header's first byte there, the buffer is run off. */
  ghost predicate RaisedAt(buf: Bytes, header: Bytes, at: nat) {
    at + |header| <= |buf| && exists layout: Layout :: layout.Plain? && RunsOff(buf, at, header, layout)
  }

  /** What a start that fits contributes. */
  lemma StartIff(buf: Bytes, header: Bytes, b: nat)
    requires header != [] && b + |header| <= |buf|
    ensures FoundAt(buf, header, b) <==> buf[b] == header[0] && Scan(buf, b, header) == Found
    ensures RaisedAt(buf, header, b) <==> buf[b] == header[0] && Scan(buf, b, header) == IndexError
  {
    hide Scan;
    if buf[b] == header[0] && Scan(buf, b, header) == Found {
      var layout := ScanSound(buf, b, header);
      assert layout.Plain? && LiesEagerly(buf, b, header, layout);
    }
    if FoundAt(buf, header, b) {
      var layout: Layout :| layout.Plain? && LiesEagerly(buf, b, header, layout);
      ScanComplete(buf, b, header, layout);
    }
    if buf[b] == header[0] && Scan(buf, b, header) == IndexError {
      var layout := ScanRaises(buf, b, header);
      RunsOffPlain(buf, b, header, layout);
    }
    if RaisedAt(buf, header, b) {
      var layout: Layout :| layout.Plain? && RunsOff(buf, b, header, layout);
      RaisesScan(buf, b, header, layout);
    }
  }

  lemma RunsOffPlain(buf: Bytes, p: nat, header: Bytes, layout: Layout)
    requires RunsOff(buf, p, header, layout) && p < |buf| && buf[p] == header[0]
    ensures layout.Plain?
  {
  }

  ghost predicate NoneRaisedIn(buf: Bytes, header: Bytes, from: nat, to: nat) {
    forall b: nat | from <= b < to :: !RaisedAt(buf, header, b)
  }

  ghost predicate NoneFoundIn(buf: Bytes, header: Bytes, from: nat, to: nat) {
    forall b: nat | from <= b < to :: !FoundAt(buf, header, b)
  }

  /** A start finds the header before any runs off the buffer. */
  ghost predicate FindsFirst(buf: Bytes, header: Bytes, from: nat) {
    exists at: nat :: from <= at && FoundAt(buf, header, at) && NoneRaisedIn(buf, header, from, at)
  }

  /** A start runs off the buffer before any finds the header. */
  ghost predicate RaisesFirst(buf: Bytes, header: Bytes, from: nat) {
    exists at: nat :: from <= at && RaisedAt(buf, header, at) && NoneFoundIn(buf, header, from, at)
  }

  /** The start that is tried next decides, or leaves the decision to those after it. */
  lemma FirstStart(buf: Bytes, header: Bytes, b: nat)
    requires !(FoundAt(buf, header, b) && RaisedAt(buf, header, b))
    ensures FindsFirst(buf, header, b) <==>
              FoundAt(buf, header, b) || (!RaisedAt(buf, header, b) && FindsFirst(buf, header, b + 1))
    ensures RaisesFirst(buf, header, b) <==>
              RaisedAt(buf, header, b) || (!FoundAt(buf, header, b) && RaisesFirst(buf, header, b + 1))
  {
    hide FoundAt, RaisedAt;
    if FoundAt(buf, header, b) {
      assert NoneRaisedIn(buf, header, b, b);
    } else if FindsFirst(buf, header, b + 1) && !RaisedAt(buf, header, b) {
      var at: nat :| b + 1 <= at && FoundAt(buf, header, at) && NoneRaisedIn(buf, header, b + 1, at);
      assert NoneRaisedIn(buf, header, b, at);
    }
    if RaisedAt(buf, header, b) {
      assert NoneFoundIn(buf, header, b, b);
    } else if RaisesFirst(buf, header, b + 1) && !FoundAt(buf, header, b) {
      var at: nat :| b + 1 <= at && RaisedAt(buf, header, at) && NoneFoundIn(buf, header, b + 1, at);
      assert NoneFoundIn(buf, header, b, at);
    }
  }

  lemma {:induction false} SearchFromIff(buf: Bytes, header: Bytes, b: nat)
    requires header != []
    ensures SearchFrom(buf, header, b) == Found <==> FindsFirst(buf, header, b)
    ensures SearchFrom(buf, header, b) == IndexError <==> RaisesFirst(buf, header, b)
    decreases |buf| + 1 - |header| - b
  {
    if b + |header| > |buf| {
      assert forall at: nat | b <= at :: !FoundAt(buf, header, at) && !RaisedAt(buf, header, at);
    } else {
      hide Scan, FoundAt, RaisedAt, FindsFirst, RaisesFirst;
      StartIff(buf, header, b);
      FirstStart(buf, header, b);
      SearchFromIff(buf, header, b + 1);
    }
  }

  /**
   Exactly when the search succeeds: the header lies in the buffer from some
   start where its first byte is, with blocks only where the byte at hand
   differs, and no start before that one runs off the buffer. Exactly when it
   raises: some start runs off the buffer, and none before it finds.
   */
  lemma SearchIff(buf: Bytes, header: Bytes)
    ensures Search(buf, header) == Found <==> header == [] || FindsFirst(buf, header, 0)
    ensures Search(buf, header) == IndexError <==> header != [] && RaisesFirst(buf, header, 0)
  {
    if header != [] {
      SearchFromIff(buf, header, 0);
    }
  }

  /** If the search succeeds, the header does lie in the buffer. */
  lemma SearchSound(buf: Bytes, header: Bytes)
    requires Search(buf, header) == Found
    ensures exists at: nat, layout :: at <= |buf| && Lies(buf, at, header, layout)
  {
    if header == [] {
      assert Lies(buf, 0, header, End);
    } else {
      SearchIff(buf, header);
      var at: nat :| FoundAt(buf, header, at) && NoneRaisedIn(buf, header, 0, at);
      var layout: Layout :| layout.Plain? && LiesEagerly(buf, at, header, layout);
    }
  }

  /**
   A header that lies in the buffer in one piece, and is not found: a start
   before it that has its first byte alone makes the search read past the end.
   */
  lemma SearchRaises()
    ensures var buf := [5, 1, 5, 7];
            var header := [5, 7];
            Search(buf, header) == IndexError && buf[2..] == header && FoundAt(buf, header, 2)
  {
    var buf: Bytes := [5, 1, 5, 7];
    var header: Bytes := [5, 7];
    assert header[1..] == [7] && [7][1..] == [];
    assert Scan(buf, 1, [7]) == IndexError;
    assert Scan(buf, 4, []) == Found;
    assert Scan(buf, 3, [7]) == Found;
    StartIff(buf, header, 2);
  }

  /** The bytes a layout keeps, all of the skipped blocks left out. */
  function Kept(buf: Bytes, p: nat, layout: Layout): Bytes
    decreases layout
  {
    match layout
    case End => []
    case Plain(next) => if p < |buf| then [buf[p]] + Kept(buf, p + 1, next) else []
    case Skipped(n, next) =>
      if p + FRAME_HEADER + n <= |buf|
      then buf[p + FRAME_HEADER..p + FRAME_HEADER + n] + Kept(buf, p + FRAME_HEADER + n, next)
      else []
  }

  /** Leaving the skipped blocks out gives the header back, byte for byte. */
  lemma SkippedKept(buf: Bytes, p: nat, header: Bytes, n: nat, next: Layout)
    requires p + FRAME_HEADER + n <= |buf| && n <= |header|
    requires buf[p + FRAME_HEADER..p + FRAME_HEADER + n] == header[..n]
    requires Kept(buf, p + FRAME_HEADER + n, next) == header[n..]
    ensures Kept(buf, p, Skipped(n, next)) == header
  {
    assert header == header[..n] + header[n..];
  }

  lemma {:induction false} LaidIsKept(buf: Bytes, p: nat, header: Bytes, layout: Layout)
    requires Lies(buf, p, header, layout)
    ensures Kept(buf, p, layout) == header
    decreases layout
  {
    hide DeclaredLength;
    match layout {
      case End =>
      case Plain(next) =>
        LaidIsKept(buf, p + 1, header[1..], next);
        assert header == [header[0]] + header[1..];
      case Skipped(n, next) =>
        hide Kept;
        LaidIsKept(buf, p + FRAME_HEADER + n, header[n..], next);
        SkippedKept(buf, p, header, n, next);
    }
  }

  /** The converse fails: a frame header whose first byte is the one looked for is taken for it. */
  lemma SearchMisses()
    ensures var buf := [5, 0, 0, 2, 9, 0, 0, 0, 0, 1, 0, 7];
            var header := [5, 0, 7];
            Search(buf, header) == NotFound && Lies(buf, 0, header, Plain(Skipped(2, End)))
  {
    var buf: Bytes := [5, 0, 0, 2, 9, 0, 0, 0, 0, 1, 0, 7];
    var header: Bytes := [5, 0, 7];
    assert header[1..] == [0, 7] && [0, 7][1..] == [7] && [0, 7][2..] == [] && [0, 7][..2] == [0, 7];
    assert buf[10..12] == [0, 7];
    assert Scan(buf, 2, [7]) == NotFound;
    assert Scan(buf, 1, [0, 7]) == NotFound;
    assert Scan(buf, 0, header) == NotFound;
    SkipStarts(buf, header, 1);
    assert Lies(buf, 12, [], End);
    assert Lies(buf, 1, [0, 7], Skipped(2, End));
  }

  lemma {:induction false} SkipStarts(buf: Bytes, header: Bytes, b: nat)
    requires header != [] && forall i | b <= i < |buf| :: buf[i] != header[0]
    ensures SearchFrom(buf, header, b) == NotFound
    decreases |buf| + 1 - |header| - b
  {
    if b + |header| > |buf| {
    } else {
      SkipStarts(buf, header, b + 1);
    }
  }
}
