/**
 Header collections: a list of headers that is looked up without regard to the
 case of names, and the comparison of an expected with a received collection.
 */
module Headers {
  import opened Text
  import opened Message

  /** The values of all headers of a name, in order. */
  function FindAll(hs: seq<Header>, name: string): seq<string> {
    if hs == [] then []
    else (if SameName(hs[0].name, name) then [hs[0].value] else []) + FindAll(hs[1..], name)
  }

  /** `delete_all` */
  function Without(hs: seq<Header>, name: string): seq<Header> {
    if hs == [] then []
    else (if SameName(hs[0].name, name) then [] else [hs[0]]) + Without(hs[1..], name)
  }

  /** One header is looked at. */
  lemma WithoutTurn(kept: seq<Header>, hs: seq<Header>, name: string)
    requires hs != []
    ensures kept + Without(hs, name)
         == (if SameName(hs[0].name, name) then kept else kept + [hs[0]]) + Without(hs[1..], name)
  {
    hide SameName;
    var rest := Without(hs[1..], name);
    assert kept + ([hs[0]] + rest) == kept + [hs[0]] + rest && [] + rest == rest;
  }

  /** `__setitem__`: the first header of the name is changed, or a new one added at the end. */
  function SetFirst(hs: seq<Header>, name: string, value: string): seq<Header> {
    if hs == [] then [Header(Lower(name), value)]
    else if SameName(hs[0].name, name) then [hs[0].(value := value)] + hs[1..]
    else [hs[0]] + SetFirst(hs[1..], name, value)
  }

  lemma {:induction false} FindAllConcat(a: seq<Header>, b: seq<Header>, name: string)
    ensures FindAll(a + b, name) == FindAll(a, name) + FindAll(b, name)
  {
    if a == [] {
      assert a + b == b;
    } else {
      assert (a + b)[1..] == a[1..] + b;
      FindAllConcat(a[1..], b, name);
    }
  }

  lemma {:induction false} WithoutConcat(a: seq<Header>, b: seq<Header>, name: string)
    ensures Without(a + b, name) == Without(a, name) + Without(b, name)
  {
    if a == [] {
      assert a + b == b;
    } else {
      assert (a + b)[1..] == a[1..] + b;
      WithoutConcat(a[1..], b, name);
    }
  }

  lemma LowerIdempotent(s: string)
    ensures Lower(Lower(s)) == Lower(s)
  {
    assert forall i | 0 <= i < |s| :: LowerChar(LowerChar(s[i])) == LowerChar(s[i]);
  }

  /** Deleting a name takes all its values and touches no other. */
  lemma {:induction false} WithoutKeepsOthers(hs: seq<Header>, name: string, other: string)
    ensures FindAll(Without(hs, name), other) == if SameName(name, other) then [] else FindAll(hs, other)
  {
    if hs == [] {
    } else {
      WithoutKeepsOthers(hs[1..], name, other);
      var first := if SameName(hs[0].name, name) then [] else [hs[0]];
      FindAllConcat(first, Without(hs[1..], name), other);
    }
  }

  /** Setting a name gives it the value first, keeps its further values, and touches no other name. */
  lemma {:induction false} SetFirstKeepsOthers(hs: seq<Header>, name: string, value: string, other: string)
    ensures var before := FindAll(hs, other);
            FindAll(SetFirst(hs, name, value), other)
            == if !SameName(name, other) then before
               else if before == [] then [value] else [value] + before[1..]
  {
    hide Lower, FindAll;
    LowerIdempotent(name);
    if hs == [] {
      var h := Header(Lower(name), value);
      assert [h] + [] == [h];
      FindAllCons(h, [], other);
      FindAllNone(other);
    } else {
      var h, rest := hs[0], hs[1..];
      assert hs == [h] + rest;
      FindAllCons(h, rest, other);
      if SameName(h.name, name) {
        FindAllCons(h.(value := value), rest, other);
      } else {
        SetFirstKeepsOthers(rest, name, value, other);
        FindAllCons(h, SetFirst(rest, name, value), other);
      }
    }
  }

  lemma FindAllNone(name: string)
    ensures FindAll([], name) == []
  {
  }

  lemma FindAllCons(h: Header, hs: seq<Header>, name: string)
    ensures FindAll([h] + hs, name) == (if SameName(h.name, name) then [h.value] else []) + FindAll(hs, name)
  {
    assert ([h] + hs)[1..] == hs;
  }

  lemma {:induction false} GetIsFirst(hs: seq<Header>, name: string)
    ensures Get(hs, name) == if FindAll(hs, name) == [] then None else Some(FindAll(hs, name)[0])
  {
    if hs == [] {
    } else {
      GetIsFirst(hs[1..], name);
    }
  }

  // ------------------------------------------------------------------- dictionaries

  type Dict = map<string, seq<string>>

  function Lookup(d: Dict, name: string): Option<seq<string>> {
    if name in d then Some(d[name]) else None
  }

  function AddTo(d: Dict, h: Header): Dict {
    var name := Lower(h.name);
    d[name := (if name in d then d[name] else []) + [h.value]]
  }

  /** `_as_dict_lower` */
  function DictOf(hs: seq<Header>): Dict {
    if hs == [] then map[] else AddTo(DictOf(hs[..|hs| - 1]), hs[|hs| - 1])
  }

  /** The dictionary holds, under each lower-cased name, the ordered values of that name. */
  lemma {:induction false} DictHolds(hs: seq<Header>, name: string)
    requires Lower(name) == name
    ensures Lookup(DictOf(hs), name) == if FindAll(hs, name) == [] then None else Some(FindAll(hs, name))
  {
    if hs == [] {
    } else {
      var before, last := hs[..|hs| - 1], hs[|hs| - 1];
      DictHolds(before, name);
      assert hs == before + [last];
      FindAllConcat(before, [last], name);
      OneHeader(last, name);
      if !SameName(last.name, name) {
        assert FindAll(before, name) + [] == FindAll(before, name);
      }
    }
  }

  lemma {:induction false} DictNamesLower(hs: seq<Header>)
    ensures forall name | name in DictOf(hs) :: Lower(name) == name
  {
    if hs == [] {
    } else {
      DictNamesLower(hs[..|hs| - 1]);
      LowerIdempotent(hs[|hs| - 1].name);
    }
  }

  // --------------------------------------------------------------------- comparison

  const EXPECT := "expect"

  /** `__check_other_headers` passes: only the names of the larger side are looked at. */
  predicate OtherHeadersMatch(expected: Dict, received: Dict) {
    var scanned := if |expected| > |received| then expected else received;
    forall name | name in scanned :: name == EXPECT || Lookup(received, name) == Lookup(expected, name)
  }

  /** Both sides have the same values, in order, for every name but Expect and `but`. */
  ghost predicate AgreeBut(expected: Dict, received: Dict, but: string) {
    forall name :: name != EXPECT && name != but ==> Lookup(received, name) == Lookup(expected, name)
  }

  ghost predicate Agree(expected: Dict, received: Dict) {
    AgreeBut(expected, received, EXPECT)
  }

  /** Expect is on the received side alone, and makes up for exactly one expected name that was not received. */
  ghost predicate ExpectMasks(expected: Dict, received: Dict) {
    EXPECT in received && EXPECT !in expected
    && exists but :: but in expected && but !in received && AgreeBut(expected, received, but)
  }

  /**
   Exactly what the one-sided scan accepts, for all dictionaries: those that
   agree on every name but Expect, and those where a received Expect masks one
   missing name.
   */
  lemma ScanAccepts(expected: Dict, received: Dict)
    ensures OtherHeadersMatch(expected, received)
            <==> Agree(expected, received) || ExpectMasks(expected, received)
  {
    if Agree(expected, received) {
      forall name ensures name == EXPECT || Lookup(received, name) == Lookup(expected, name) {
      }
    } else if OtherHeadersMatch(expected, received) {
      PassWithoutAgreeing(expected, received);
    } else if ExpectMasks(expected, received) {
      MaskedPasses(expected, received);
    }
  }

  lemma KeySizes(d: Dict)
    ensures |d| == |d.Keys| && |d.Keys - {EXPECT}| == |d| - (if EXPECT in d then 1 else 0)
  {
    assert EXPECT in d ==> |d.Keys - {EXPECT}| == |d.Keys| - 1;
    assert EXPECT !in d ==> d.Keys - {EXPECT} == d.Keys;
  }

  lemma Smaller(a: set<string>, b: set<string>)
    requires a <= b
    ensures |a| <= |b| && (|a| == |b| ==> a == b)
  {
    assert b == a + (b - a);
    assert |b| == |a| + |b - a|;
  }

  /** If the scan passes and the sides do not agree, the scanned side is the received one and lacks one name. */
  lemma PassWithoutAgreeing(expected: Dict, received: Dict)
    requires OtherHeadersMatch(expected, received) && !Agree(expected, received)
    ensures ExpectMasks(expected, received)
  {
    var e, r := expected.Keys - {EXPECT}, received.Keys - {EXPECT};
    KeySizes(expected);
    KeySizes(received);
    var odd :| odd != EXPECT && Lookup(received, odd) != Lookup(expected, odd);
    if |expected| > |received| {
      assert e <= r by { ScannedCovered(expected, received, expected, received); }
      Smaller(e, r);
    } else {
      assert r <= e by { ScannedCovered(received, expected, expected, received); }
      assert odd !in r && odd in e;
      assert r <= e - {odd};
      Smaller(r, e - {odd});
      assert r == e - {odd};
      forall name | name != EXPECT && name != odd ensures Lookup(received, name) == Lookup(expected, name) {
        assert name in e <==> name in r;
      }
      assert AgreeBut(expected, received, odd);
    }
  }

  /** A name that was scanned and agrees is on both sides. */
  lemma ScannedCovered(scanned: Dict, other: Dict, expected: Dict, received: Dict)
    requires (scanned, other) == (expected, received) || (scanned, other) == (received, expected)
    requires forall name | name in scanned :: name == EXPECT || Lookup(received, name) == Lookup(expected, name)
    ensures scanned.Keys - {EXPECT} <= other.Keys - {EXPECT}
  {
    forall name | name in scanned.Keys - {EXPECT} ensures name in other {
      assert Lookup(received, name) == Lookup(expected, name);
    }
  }

  lemma MaskedPasses(expected: Dict, received: Dict)
    requires ExpectMasks(expected, received)
    ensures OtherHeadersMatch(expected, received)
  {
    var but :| but in expected && but !in received && AgreeBut(expected, received, but);
    var common := received.Keys - {EXPECT};
    KeySizes(received);
    assert expected.Keys == common + {but} by {
      forall name ensures name in expected <==> name in common + {but} {
        if name != EXPECT && name != but {
          assert Lookup(received, name) == Lookup(expected, name);
        }
      }
    }
    assert |expected.Keys| == |common| + 1 == |received|;
    forall name | name in received ensures name == EXPECT || Lookup(received, name) == Lookup(expected, name) {
      assert name != but;
    }
  }

  // --------------------------------------------------------------------- collections

  /** `timeDelta` is how far a Date may be off, both ways together. */
  datatype Collection = Collection(headers: seq<Header>, isExpected: bool, timeDelta: int)

  /** `Misused` is the framework's own error, `Crashes` a ValueError of a number or date. */
  datatype Verdict = Equal | Different | Misused | Crashes

  /** What one check comes to. */
  datatype Check = Pass | Fail | Crashed

  function FirstOf(a: Check, b: Check): Check {
    if a == Pass then b else a
  }

  /** The time a date stands for; None if it is none. */
  type DateParser = string -> Option<int>

  /** One Date on each side: no more than half the time difference apart. */
  function CheckDate(dates: DateParser, delta: int, expected: seq<string>, received: seq<string>): Check {
    if |expected| != 1 || |received| != 1 then Pass
    else
      match (dates(expected[0]), dates(received[0]))
      case (Some(e), Some(r)) => if 2 * e - delta <= 2 * r <= 2 * e + delta then Pass else Fail
      case _ => Crashed
  }

  /** One Age on each side: not less than expected. Otherwise at most one, and not negative. */
  function CheckAge(expected: seq<string>, received: seq<string>): Check {
    if received == [] then Pass
    else if |received| > 1 then Fail
    else
      match (ParseInt(received[0], 10), if |expected| == 1 then ParseInt(expected[0], 10) else Some(0))
      case (Some(r), Some(e)) => if r >= e then Pass else Fail
      case _ => Crashed
  }

  /** Connection on both sides: the same. Otherwise at most one, `close` or `keep-alive`. */
  function CheckConnection(expected: seq<string>, received: seq<string>): Check {
    if received == [] then Pass
    else if expected != [] then if received == expected then Pass else Fail
    else if |received| == 1 && received[0] in ["close", "keep-alive"] then Pass
    else Fail
  }

  const WARNINGS := [
    "110 - Response is stale", "111 - Revalidation Failed", "112 - Disconnected Operation",
    "113 - Heuristic Expiration", "199 - Miscellaneous Warning", "214 - Transformation Applied",
    "299 - Miscellaneous Persistent Warning"]

  /** Warning on both sides: the same. Otherwise those received are known ones. */
  function CheckWarning(expected: seq<string>, received: seq<string>): Check {
    if received == [] then Pass
    else if expected != [] then if received == expected then Pass else Fail
    else if forall i | 0 <= i < |received| :: received[i] in WARNINGS then Pass
    else Fail
  }

  /** The four checks in their order. */
  function CheckApart(dates: DateParser, delta: int, e: string -> seq<string>, r: string -> seq<string>): Check {
    FirstOf(CheckDate(dates, delta, e("date"), r("date")),
      FirstOf(CheckAge(e("age"), r("age")),
        FirstOf(CheckConnection(e("connection"), r("connection")), CheckWarning(e("warning"), r("warning")))))
  }

  /** The names that are then left out of the scan; Date only if there is one on each side. */
  function Apart(e: string -> seq<string>, r: string -> seq<string>): set<string> {
    {"age", "connection", "warning"} + if |e("date")| == 1 && |r("date")| == 1 then {"date"} else {}
  }

  function ValuesIn(d: Dict): string -> seq<string> {
    name => if name in d then d[name] else []
  }

  function ValuesOf(c: Collection): string -> seq<string> {
    name => FindAll(c.headers, name)
  }

  function ExpectedOf(a: Collection, b: Collection): Collection {
    if a.isExpected then a else b
  }

  function ReceivedOf(a: Collection, b: Collection): Collection {
    if a.isExpected then b else a
  }

  /** `a == b` */
  function Compare(dates: DateParser, a: Collection, b: Collection): Verdict {
    if a.isExpected == b.isExpected then Misused
    else
      var e, r := DictOf(ExpectedOf(a, b).headers), DictOf(ReceivedOf(a, b).headers);
      CompareDicts(dates, ExpectedOf(a, b).timeDelta, e, r)
  }

  function CompareDicts(dates: DateParser, delta: int, e: Dict, r: Dict): Verdict {
    var apart := Apart(ValuesIn(e), ValuesIn(r));
    match CheckApart(dates, delta, ValuesIn(e), ValuesIn(r))
    case Crashed => Crashes
    case Fail => Different
    case Pass => if OtherHeadersMatch(e - apart, r - apart) then Equal else Different
  }

  /** The same values, in order, under every name but Expect and those in `apart`. */
  ghost predicate SameValues(a: Collection, b: Collection, apart: set<string>) {
    forall name ::
      Lower(name) != EXPECT && Lower(name) !in apart ==> FindAll(a.headers, name) == FindAll(b.headers, name)
  }

  lemma {:induction false} FindAllByLower(hs: seq<Header>, name: string)
    ensures FindAll(hs, Lower(name)) == FindAll(hs, name)
  {
    LowerIdempotent(name);
    if hs == [] {
    } else {
      FindAllByLower(hs[1..], name);
    }
  }

  lemma DictsAgreeIff(a: Collection, b: Collection, apart: set<string>)
    ensures Agree(DictOf(a.headers) - apart, DictOf(b.headers) - apart) <==> SameValues(a, b, apart)
  {
    hide DictOf, FindAll, Lower;
    var d, e := DictOf(a.headers) - apart, DictOf(b.headers) - apart;
    if Agree(d, e) {
      forall name | Lower(name) != EXPECT && Lower(name) !in apart
        ensures FindAll(a.headers, name) == FindAll(b.headers, name)
      {
        LowerIdempotent(name);
        DictHolds(a.headers, Lower(name));
        DictHolds(b.headers, Lower(name));
        FindAllByLower(a.headers, name);
        FindAllByLower(b.headers, name);
        assert Lookup(e, Lower(name)) == Lookup(d, Lower(name));
      }
    }
    if SameValues(a, b, apart) {
      DictNamesLower(a.headers);
      DictNamesLower(b.headers);
      forall name | name != EXPECT ensures Lookup(e, name) == Lookup(d, name) {
        if Lower(name) == name && name !in apart {
          DictHolds(a.headers, name);
          DictHolds(b.headers, name);
        }
      }
    }
  }

  lemma ApartNames()
    ensures Lower("date") == "date" && Lower("age") == "age" && Lower("connection") == "connection"
    ensures Lower("warning") == "warning" && Lower(EXPECT) == EXPECT
  {
  }

  /** Taking other names out of a dictionary leaves a name its values. */
  lemma TakenOut(d: Dict, names: set<string>, name: string)
    ensures name !in names ==> ValuesIn(d - names)(name) == ValuesIn(d)(name)
    ensures d - names - {name} == d - (names + {name})
  {
  }

  /** The dictionary gives the four checks the values of the collection. */
  lemma SameApart(c: Collection)
    ensures var d, v := ValuesIn(DictOf(c.headers)), ValuesOf(c);
            && d("date") == v("date") && d("age") == v("age")
            && d("connection") == v("connection") && d("warning") == v("warning")
  {
    hide DictOf, FindAll, Lower;
    ApartNames();
    DictHolds(c.headers, "date");
    DictHolds(c.headers, "age");
    DictHolds(c.headers, "connection");
    DictHolds(c.headers, "warning");
  }

  /**
   The comparison passes exactly when the four headers that are checked apart
   pass, and every other name but Expect has the same values in the same order
   on both sides or a received Expect masks one missing name; the last cannot
   be unless Expect was received and not expected. Case of names, order across
   names and the side of the operands do not matter.
   */
  lemma CompareIff(dates: DateParser, a: Collection, b: Collection)
    requires a.isExpected != b.isExpected
    ensures var e, r := ExpectedOf(a, b), ReceivedOf(a, b);
            var apart := Apart(ValuesOf(e), ValuesOf(r));
            var passed := CheckApart(dates, e.timeDelta, ValuesOf(e), ValuesOf(r)) == Pass;
            && (Compare(dates, a, b) == Equal <==>
                  passed
                  && (SameValues(a, b, apart) || ExpectMasks(DictOf(e.headers) - apart, DictOf(r.headers) - apart)))
            && (FindAll(r.headers, EXPECT) == [] || FindAll(e.headers, EXPECT) != [] ==>
                  (Compare(dates, a, b) == Equal <==> passed && SameValues(a, b, apart)))
    ensures Compare(dates, a, b) == Compare(dates, b, a)
  {
    hide OtherHeadersMatch, DictOf, Agree, FindAll, Lower, CheckDate, CheckAge, CheckConnection, CheckWarning;
    var e, r := ExpectedOf(a, b), ReceivedOf(a, b);
    SameApart(e);
    SameApart(r);
    var apart := Apart(ValuesOf(e), ValuesOf(r));
    ScanAccepts(DictOf(e.headers) - apart, DictOf(r.headers) - apart);
    DictsAgreeIff(e, r, apart);
    ApartNames();
    DictHolds(e.headers, EXPECT);
    DictHolds(r.headers, EXPECT);
  }

  /** The scan does let a missing header through when Expect was received alone. */
  lemma MissingHeaderAccepted(dates: DateParser)
    ensures var expected := Collection([Header("x", "1")], true, 0);
            var received := Collection([Header("expect", "2")], false, 0);
            Compare(dates, expected, received) == Equal && !SameValues(expected, received, {})
  {
    hide FindAll, DictOf, Lower;
    var expected := Collection([Header("x", "1")], true, 0);
    var received := Collection([Header("expect", "2")], false, 0);
    assert Lower("x") == "x" && Lower("expect") == EXPECT by { LowerCases(); }
    OneHeader(expected.headers[0], "x");
    OneHeader(received.headers[0], "x");
    assert FindAll(expected.headers, "x") != FindAll(received.headers, "x");
    OneDict(expected.headers[0]);
    OneDict(received.headers[0]);
    NothingApart(dates, 0, DictOf(expected.headers), DictOf(received.headers));
  }

  /** Without the four headers, the comparison is the scan alone. */
  lemma NothingApart(dates: DateParser, delta: int, e: Dict, r: Dict)
    requires forall name | name in ["date", "age", "connection", "warning"] :: name !in e && name !in r
    ensures CompareDicts(dates, delta, e, r) == if OtherHeadersMatch(e, r) then Equal else Different
  {
    hide OtherHeadersMatch;
    assert "date" in ["date", "age", "connection", "warning"] && "age" in ["date", "age", "connection", "warning"];
    assert "connection" in ["date", "age", "connection", "warning"];
    assert "warning" in ["date", "age", "connection", "warning"];
    var apart := Apart(ValuesIn(e), ValuesIn(r));
    assert e - apart == e && r - apart == r;
  }

  lemma LowerCases()
    ensures Lower("x") == "x" && Lower("expect") == EXPECT
  {
  }

  lemma OneHeader(h: Header, name: string)
    ensures FindAll([h], name) == if SameName(h.name, name) then [h.value] else []
  {
    assert [h][1..] == [];
  }

  lemma OneDict(h: Header)
    ensures DictOf([h]) == map[Lower(h.name) := [h.value]]
  {
    assert [h][..0] == [] && [] + [h.value] == [h.value];
  }

  // ------------------------------------------------------------------------ the object

  class HeaderCollection {
    var headers: seq<Header>
    var isExpected: bool
    var timeDelta: int

    constructor (headers: seq<Header>, isExpected: bool, timeDelta: int)
      ensures this.headers == headers && this.isExpected == isExpected && this.timeDelta == timeDelta
    {
      this.headers, this.isExpected, this.timeDelta := headers, isExpected, timeDelta;
    }

    function AsCollection(): Collection
      reads this
    {
      Collection(headers, isExpected, timeDelta)
    }

    method Add(name: string, value: string)
      modifies this`headers
      ensures headers == old(headers) + [Header(name, value)]
    {
      headers := headers + [Header(name, value)];
    }

    /** `__setitem__` */
    method SetItem(name: string, value: string)
      modifies this`headers
      ensures headers == SetFirst(old(headers), name, value)
    {
      var before := headers;
      for i := 0 to |before|
        invariant headers == before && SetFirst(before, name, value) == before[..i] + SetFirst(before[i..], name, value)
      {
        if SameName(before[i].name, name) {
          headers := before[i := before[i].(value := value)];
          assert before[i..][1..] == before[i + 1..];
          assert headers == before[..i] + ([before[i].(value := value)] + before[i + 1..]);
          return;
        }
        assert before[i..][1..] == before[i + 1..];
        assert before[..i] + ([before[i]] + SetFirst(before[i + 1..], name, value))
            == before[..i + 1] + SetFirst(before[i + 1..], name, value);
      }
      assert before[..|before|] == before && before[|before|..] == [];
      headers := headers + [Header(Lower(name), value)];
    }

    method DeleteAll(name: string)
      modifies this`headers
      ensures headers == Without(old(headers), name)
    {
      var kept: seq<Header> := [];
      assert Without([], name) == [] && headers[0..] == headers;
      hide Without, SameName;
      for i := 0 to |headers|
        invariant headers == old(headers)
        invariant Without(headers, name) == kept + Without(headers[i..], name)
      {
        WithoutTurn(kept, headers[i..], name);
        assert headers[i..][1..] == headers[i + 1..];
        if !SameName(headers[i].name, name) {
          kept := kept + [headers[i]];
        }
      }
      assert kept + [] == kept;
      headers := kept;
    }

    method AsDictLower() returns (d: Dict)
      ensures d == DictOf(headers)
    {
      d := map[];
      for i := 0 to |headers|
        invariant d == DictOf(headers[..i])
      {
        assert headers[..i + 1][..i] == headers[..i];
        d := AddTo(d, headers[i]);
      }
      assert headers[..|headers|] == headers;
    }

    /** `__check_other_headers` */
    method CheckOthers(expected: Dict, received: Dict) returns (passed: bool)
      ensures passed == OtherHeadersMatch(expected, received)
    {
      var scanned := if |expected| > |received| then expected else received;
      var names := scanned.Keys;
      while names != {}
        invariant names <= scanned.Keys
        invariant forall name | name in scanned && name !in names ::
                    name == EXPECT || Lookup(received, name) == Lookup(expected, name)
        decreases |names|
      {
        var name :| name in names;
        if name != EXPECT && Lookup(received, name) != Lookup(expected, name) {
          return false;
        }
        names := names - {name};
      }
      passed := true;
    }

    /** The four checks that take their header out of both dictionaries. */
    method CheckFour(dates: DateParser, delta: int, e: Dict, r: Dict) returns (check: Check, e': Dict, r': Dict)
      ensures check == CheckApart(dates, delta, ValuesIn(e), ValuesIn(r))
      ensures check == Pass ==>
                var apart := Apart(ValuesIn(e), ValuesIn(r)); e' == e - apart && r' == r - apart
    {
      hide CheckDate, CheckAge, CheckConnection, CheckWarning, ValuesIn;
      e', r' := e, r;
      ghost var gone: set<string> := {};
      check := CheckDate(dates, delta, ValuesIn(e)("date"), ValuesIn(r)("date"));
      if |ValuesIn(e)("date")| == 1 && |ValuesIn(r)("date")| == 1 {
        e', r' := e - {"date"}, r - {"date"};
        gone := {"date"};
      }
      if check != Pass {
        return;
      }
      assert e' == e - gone && r' == r - gone;
      TakenOut(e, gone, "age");
      TakenOut(r, gone, "age");
      check := CheckAge(ValuesIn(e')("age"), ValuesIn(r')("age"));
      e', r', gone := e' - {"age"}, r' - {"age"}, gone + {"age"};
      if check != Pass {
        return;
      }
      TakenOut(e, gone, "connection");
      TakenOut(r, gone, "connection");
      check := CheckConnection(ValuesIn(e')("connection"), ValuesIn(r')("connection"));
      e', r', gone := e' - {"connection"}, r' - {"connection"}, gone + {"connection"};
      if check != Pass {
        return;
      }
      TakenOut(e, gone, "warning");
      TakenOut(r, gone, "warning");
      check := CheckWarning(ValuesIn(e')("warning"), ValuesIn(r')("warning"));
      e', r', gone := e' - {"warning"}, r' - {"warning"}, gone + {"warning"};
      assert gone == Apart(ValuesIn(e), ValuesIn(r));
    }

    /** `__eq__`; a failed assertion is `Different`. */
    method Equals(dates: DateParser, other: HeaderCollection) returns (verdict: Verdict)
      ensures verdict == Compare(dates, AsCollection(), other.AsCollection())
    {
      hide OtherHeadersMatch, DictOf, CheckApart, Apart;
      var mine := AsDictLower();
      var theirs := other.AsDictLower();
      if isExpected == other.isExpected {
        return Misused;
      }
      var e, r := if isExpected then mine else theirs, if isExpected then theirs else mine;
      var delta := if isExpected then timeDelta else other.timeDelta;
      var check;
      check, e, r := CheckFour(dates, delta, e, r);
      if check != Pass {
        return if check == Fail then Different else Crashes;
      }
      var passed := CheckOthers(e, r);
      verdict := if passed then Equal else Different;
    }
  }
}
