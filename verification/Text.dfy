/**
 Text primitives the message parser is built from: reading a line from the
 text that is left, stripping, splitting and integer literals, each with
 Python's own rules for ASCII text.
 */
module Text {

  datatype Option<+T> = None | Some(value: T)

  /** The characters `str.strip()` and `str.split()` treat as white space. */
  predicate IsSpace(c: char) {
    var n := c as int;
    9 <= n <= 13 || 28 <= n <= 32 || n == 0x85 || n == 0xA0 || n == 0x1680
    || 0x2000 <= n <= 0x200A || n == 0x2028 || n == 0x2029 || n == 0x202F || n == 0x205F || n == 0x3000
  }

  /** The characters `int()` skips around a literal. */
  predicate IsIntSpace(c: char) {
    9 <= c as int <= 13 || c == ' '
  }

  predicate IsEol(c: char) {
    c == '\r' || c == '\n'
  }

  /** The first character of a continuation line. */
  predicate IsBlank(c: char) {
    c == ' ' || c == '\t'
  }

  predicate All(p: char -> bool, s: string) {
    forall i | 0 <= i < |s| :: p(s[i])
  }

  predicate NoneOf(p: char -> bool, s: string) {
    forall i | 0 <= i < |s| :: !p(s[i])
  }

  // ---------------------------------------------------------------- lines

  /** Length of the line `readline()` returns when `s` is left in the stream. */
  function LineEnd(s: string): (n: nat)
    ensures n <= |s|
    ensures s != "" ==> n > 0
    ensures forall i | 0 <= i < n - 1 :: s[i] != '\n'
    ensures n < |s| ==> n > 0 && s[n - 1] == '\n'
  {
    if s == "" then 0 else if s[0] == '\n' then 1 else 1 + LineEnd(s[1..])
  }

  function Line(s: string): string {
    s[..LineEnd(s)]
  }

  function After(s: string): string {
    s[LineEnd(s)..]
  }

  predicate EndsLf(line: string) {
    line != "" && line[|line| - 1] == '\n'
  }

  /** What is seen of a line that a cut goes through is all that is left, and has no line end. */
  lemma LineCut(p: string, u: string)
    requires LineEnd(p + u) > |p|
    ensures Line(p) == p && After(p) == "" && !EndsLf(p)
  {
    forall i | 0 <= i < |p| ensures p[i] != '\n' {
      assert p[i] == (p + u)[i];
    }
  }

  /** A line the cut does not go through is read the same on both sides of it. */
  lemma LineKept(p: string, u: string)
    requires LineEnd(p + u) <= |p| && EndsLf(Line(p + u))
    ensures Line(p) == Line(p + u) && EndsLf(Line(p)) && After(p + u) == After(p) + u
  {
    var n := LineEnd(p + u);
    assert p[n - 1] == (p + u)[n - 1];
    forall i | 0 <= i < n - 1 ensures p[i] != '\n' {
      assert p[i] == (p + u)[i];
    }
    assert LineEnd(p) == n;
  }

  lemma FirstLine(l: string, t: string)
    requires '\n' !in l
    ensures Line(l + "\r\n" + t) == l + "\r\n"
    ensures After(l + "\r\n" + t) == t
  {
    var s := l + "\r\n" + t;
    forall i | 0 <= i < |l| + 1 ensures s[i] != '\n' {
      if i < |l| {
        assert s[i] == l[i];
      }
    }
    assert s[|l| + 1] == '\n';
    assert LineEnd(s) == |l| + 2;
  }

  // ------------------------------------------------------------- stripping

  function RStripLen(p: char -> bool, s: string): (n: nat)
    ensures n <= |s|
    ensures n > 0 ==> !p(s[n - 1])
    ensures forall i | n <= i < |s| :: p(s[i])
  {
    if s == "" then 0 else if p(s[|s| - 1]) then RStripLen(p, s[..|s| - 1]) else |s|
  }

  function LStripLen(p: char -> bool, s: string): (n: nat)
    ensures n <= |s|
    ensures n < |s| ==> !p(s[n])
    ensures forall i | 0 <= i < n :: p(s[i])
  {
    if s == "" then 0 else if p(s[0]) then 1 + LStripLen(p, s[1..]) else 0
  }

  function RStripBy(p: char -> bool, s: string): string {
    s[..RStripLen(p, s)]
  }

  function StripBy(p: char -> bool, s: string): string {
    RStripBy(p, s[LStripLen(p, s)..])
  }

  /** `str.strip()` */
  function Strip(s: string): string {
    StripBy(IsSpace, s)
  }

  /** `str.rstrip("\r\n")` */
  function RStripEol(s: string): string {
    RStripBy(IsEol, s)
  }

  /** Nothing at either end would be stripped. */
  predicate TrimmedBy(p: char -> bool, s: string) {
    s == "" || (!p(s[0]) && !p(s[|s| - 1]))
  }

  predicate Trimmed(s: string) {
    TrimmedBy(IsSpace, s)
  }

  lemma RStripPadded(p: char -> bool, v: string, b: string)
    requires All(p, b)
    requires v == "" || !p(v[|v| - 1])
    ensures RStripBy(p, v + b) == v
  {
    var s := v + b;
    assert forall i | |v| <= i < |s| :: s[i] == b[i - |v|];
    assert v != "" ==> s[|v| - 1] == v[|v| - 1];
    assert RStripLen(p, s) == |v|;
    assert s[..|v|] == v;
  }

  lemma StripPadded(p: char -> bool, a: string, v: string, b: string)
    requires All(p, a) && All(p, b) && TrimmedBy(p, v)
    ensures StripBy(p, a + v + b) == v
  {
    var s := a + v + b;
    var n := LStripLen(p, s);
    if v == "" {
      assert forall i | 0 <= i < |s| :: p(s[i]);
      assert n == |s|;
    } else {
      assert s[|a|] == v[0];
      assert forall i | 0 <= i < |a| :: s[i] == a[i];
      assert n == |a|;
      assert s[n..] == v + b;
      RStripPadded(p, v, b);
    }
  }

  lemma StripTrimmed(p: char -> bool, v: string)
    requires TrimmedBy(p, v)
    ensures StripBy(p, v) == v
  {
    StripPadded(p, "", v, "");
    assert "" + v + "" == v;
  }

  // ------------------------------------------------------------- splitting

  function IndexOf(s: string, c: char): (n: nat)
    ensures n <= |s|
    ensures forall i | 0 <= i < n :: s[i] != c
    ensures n < |s| ==> s[n] == c
  {
    if s == "" then 0 else if s[0] == c then 0 else 1 + IndexOf(s[1..], c)
  }

  /** `s.split(c)[0]` */
  function Before(s: string, c: char): string {
    s[..IndexOf(s, c)]
  }

  /** `s.split(c)[-1]` */
  function AfterLast(s: string, c: char): string
    decreases |s|
  {
    var n := IndexOf(s, c);
    if n == |s| then s else AfterLast(s[n + 1..], c)
  }

  /** `s.split(c, 1)` unpacked into two names, or the failure to do so. */
  function SplitOnce(s: string, c: char): Option<(string, string)> {
    var n := IndexOf(s, c);
    if n == |s| then None else Some((s[..n], s[n + 1..]))
  }

  lemma SplitOnceAt(a: string, c: char, b: string)
    requires c !in a
    ensures SplitOnce(a + [c] + b, c) == Some((a, b))
    ensures Before(a + [c] + b, c) == a
  {
    var s := a + [c] + b;
    assert forall i | 0 <= i < |a| :: s[i] == a[i];
    assert s[|a|] == c;
    assert IndexOf(s, c) == |a|;
    assert s[..|a|] == a && s[|a| + 1..] == b;
  }

  /** Length of the run of non-space characters `s` starts with. */
  function WordLen(s: string): (n: nat)
    ensures n <= |s|
    ensures forall i | 0 <= i < n :: !IsSpace(s[i])
    ensures n < |s| ==> IsSpace(s[n])
  {
    if s == "" || IsSpace(s[0]) then 0 else 1 + WordLen(s[1..])
  }

  /** `str.split()` */
  function Words(s: string): seq<string>
    decreases |s|
  {
    if s == "" then []
    else if IsSpace(s[0]) then Words(s[1..])
    else [s[..WordLen(s)]] + Words(s[WordLen(s)..])
  }

  predicate Token(s: string) {
    s != "" && NoneOf(IsSpace, s)
  }

  lemma WordsFirst(w: string, t: string)
    requires Token(w)
    requires t == "" || IsSpace(t[0])
    ensures Words(w + t) == [w] + Words(t)
  {
    var s := w + t;
    assert forall i | 0 <= i < |w| :: s[i] == w[i];
    assert |w| < |s| ==> s[|w|] == t[0];
    assert WordLen(s) == |w|;
    assert s[..|w|] == w && s[|w|..] == t;
  }

  lemma WordsAfterSpace(w: string, t: string)
    requires Token(w)
    requires t == "" || IsSpace(t[0])
    ensures Words(" " + w + t) == [w] + Words(t)
  {
    hide Words, Token, IsSpace;
    WordsFirst(w, t);
    SpaceThen(w + t);
    assert " " + w + t == " " + (w + t);
  }

  lemma SpaceThen(s: string)
    ensures Words(" " + s) == Words(s)
  {
    assert (" " + s)[1..] == s;
  }

  // -------------------------------------------------------------- lower case

  function LowerChar(c: char): char {
    if 'A' <= c <= 'Z' then (c as int + 32) as char else c
  }

  /** `str.lower()` on ASCII text */
  function Lower(s: string): (r: string)
    ensures |r| == |s|
  {
    seq(|s|, i requires 0 <= i < |s| => LowerChar(s[i]))
  }

  // ---------------------------------------------------------------- integers

  predicate IsDigit(c: char, base: nat)
    requires base == 10 || base == 16
  {
    '0' <= c <= '9' || (base == 16 && ('a' <= c <= 'f' || 'A' <= c <= 'F'))
  }

  function DigitValue(c: char, base: nat): (v: nat)
    requires base == 10 || base == 16
    requires IsDigit(c, base)
    ensures v < base
  {
    if '0' <= c <= '9' then c as int - '0' as int
    else if 'a' <= c <= 'f' then c as int - 'a' as int + 10
    else c as int - 'A' as int + 10
  }

  /** The rest of a literal after at least one digit: digits, single underscores between them. */
  function MoreDigits(s: string, base: nat, acc: nat): Option<nat>
    requires base == 10 || base == 16
    decreases |s|
  {
    if s == "" then Some(acc)
    else if s[0] == '_' then
      if |s| > 1 && IsDigit(s[1], base) then MoreDigits(s[2..], base, acc * base + DigitValue(s[1], base)) else None
    else if IsDigit(s[0], base) then MoreDigits(s[1..], base, acc * base + DigitValue(s[0], base))
    else None
  }

  function Digits(s: string, base: nat): Option<nat>
    requires base == 10 || base == 16
  {
    if s != "" && IsDigit(s[0], base) then MoreDigits(s[1..], base, DigitValue(s[0], base)) else None
  }

  /** The `0x` prefix that a base 16 literal may carry, with one underscore after it. */
  function DropPrefix(s: string, base: nat): string {
    if base == 16 && |s| >= 2 && s[0] == '0' && (s[1] == 'x' || s[1] == 'X')
    then if |s| > 2 && s[2] == '_' then s[3..] else s[2..]
    else s
  }

  /** `int(s, base)`; None stands for the ValueError it raises. */
  function ParseInt(s: string, base: nat): Option<int>
    requires base == 10 || base == 16
  {
    var t := StripBy(IsIntSpace, s);
    var negative := t != "" && t[0] == '-';
    var u := if t != "" && (t[0] == '-' || t[0] == '+') then t[1..] else t;
    match Digits(DropPrefix(u, base), base)
    case None => None
    case Some(n) => Some(if negative then 0 - n as int else n as int)
  }

  predicate AllDigits(s: string, base: nat)
    requires base == 10 || base == 16
  {
    forall i | 0 <= i < |s| :: IsDigit(s[i], base)
  }

  /** The number a string of digits denotes, most significant digit first. */
  function NumberOf(s: string, base: nat): nat
    requires base == 10 || base == 16
    requires AllDigits(s, base)
  {
    if s == "" then 0 else NumberOf(s[..|s| - 1], base) * base + DigitValue(s[|s| - 1], base)
  }

  lemma {:induction false} MoreDigitsRun(done: string, s: string, base: nat)
    requires base == 10 || base == 16
    requires AllDigits(done, base) && AllDigits(s, base)
    ensures AllDigits(done + s, base)
    ensures MoreDigits(s, base, NumberOf(done, base)) == Some(NumberOf(done + s, base))
    decreases |s|
  {
    if s == "" {
      assert done + s == done;
    } else {
      var done' := done + [s[0]];
      assert done'[..|done' | - 1] == done;
      assert NumberOf(done', base) == NumberOf(done, base) * base + DigitValue(s[0], base);
      assert done' + s[1..] == done + s;
      MoreDigitsRun(done', s[1..], base);
    }
  }

  /** A plain run of digits is a literal for the number it denotes. */
  lemma ParseIntDigits(s: string, base: nat)
    requires base == 10 || base == 16
    requires s != "" && AllDigits(s, base)
    ensures ParseInt(s, base) == Some(NumberOf(s, base))
  {
    hide StripBy, Digits, NumberOf;
    assert IsDigit(s[0], base) && IsDigit(s[|s| - 1], base);
    StripTrimmed(IsIntSpace, s);
    assert |s| >= 2 ==> IsDigit(s[1], base);
    assert DropPrefix(s, base) == s;
    DigitsRun(s, base);
  }

  lemma DigitsRun(s: string, base: nat)
    requires base == 10 || base == 16
    requires s != "" && AllDigits(s, base)
    ensures Digits(s, base) == Some(NumberOf(s, base))
  {
    hide MoreDigits;
    var first := [s[0]];
    assert first[..0] == "";
    assert NumberOf(first, base) == NumberOf("", base) * base + DigitValue(s[0], base);
    assert first + s[1..] == s;
    MoreDigitsRun(first, s[1..], base);
  }

  function DigitChar(d: nat): (c: char)
    requires d < 16
    ensures IsDigit(c, 16) && DigitValue(c, 16) == d
    ensures d < 10 ==> IsDigit(c, 10) && DigitValue(c, 10) == d
  {
    if d < 10 then ('0' as int + d) as char else ('a' as int + d - 10) as char
  }

  /** `hex(n)[2:]` for base 16 and `str(n)` for base 10. */
  function PrintNat(n: nat, base: nat): (s: string)
    requires base == 10 || base == 16
    ensures s != "" && AllDigits(s, base)
  {
    if n < base then [DigitChar(n)] else PrintNat(n / base, base) + [DigitChar(n % base)]
  }

  lemma {:induction false} NumberOfPrinted(n: nat, base: nat)
    requires base == 10 || base == 16
    ensures NumberOf(PrintNat(n, base), base) == n
  {
    hide IsDigit, DigitValue, DigitChar;
    if n < base {
      OneMoreDigit("", n, base);
      assert "" + [DigitChar(n)] == [DigitChar(n)];
    } else {
      NumberOfPrinted(n / base, base);
      OneMoreDigit(PrintNat(n / base, base), n % base, base);
      Quotient(n, base);
    }
  }

  lemma OneMoreDigit(s: string, d: nat, base: nat)
    requires base == 10 || base == 16
    requires AllDigits(s, base) && d < base
    ensures AllDigits(s + [DigitChar(d)], base)
    ensures NumberOf(s + [DigitChar(d)], base) == NumberOf(s, base) * base + d
  {
    hide IsDigit, DigitValue, DigitChar;
    var more := s + [DigitChar(d)];
    assert more[..|more| - 1] == s;
  }

  lemma Quotient(n: nat, base: nat)
    requires base == 10 || base == 16
    ensures n / base * base + n % base == n
  {
  }

  /** Printing and reading a number are inverse. */
  lemma ParsePrinted(n: nat, base: nat)
    requires base == 10 || base == 16
    ensures ParseInt(PrintNat(n, base), base) == Some(n)
  {
    NumberOfPrinted(n, base);
    ParseIntDigits(PrintNat(n, base), base);
  }
}
