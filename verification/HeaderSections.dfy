/**
 The header parser on header and trailer sections: what it makes of a whole
 section with anything after it, and of a section that is cut short.
 */
module HeaderSections {
  import opened Text
  import opened Message
  import opened Grammar

  // ------------------------------------------------- a whole header section is read

  /** The text goes on with a complete line that does not continue the one before. */
  predicate StartsLine(s: string) {
    EndsLf(Line(s)) && !StartsBlank(Line(s))
  }

  lemma PaddedLine(lead: string, text: string, trail: string)
    requires All(IsBlank, lead) && OneLine(text) && All(IsBlank, trail)
    ensures Strip(lead + text + trail) == text
    ensures Strip(lead + text + trail + "\r\n") == text
    ensures '\n' !in lead + text + trail
    ensures lead + text + trail != "" ==> !IsEol((lead + text + trail)[|lead + text + trail| - 1])
  {
    BlanksAreSpace(lead);
    BlanksAreSpace(trail);
    LastNoEol(lead, text, trail);
    hide IsSpace, IsBlank, IsEol, StripBy;
    StripPadded(IsSpace, lead, text, trail);
    StripPadded(IsSpace, lead, text, trail + "\r\n");
    assert lead + text + (trail + "\r\n") == lead + text + trail + "\r\n";
  }

  lemma BlanksAreSpace(s: string)
    requires All(IsBlank, s)
    ensures All(IsSpace, s) && All(IsSpace, s + "\r\n") && '\n' !in s
  {
  }

  lemma LastNoEol(lead: string, text: string, trail: string)
    requires All(IsBlank, lead) && OneLine(text) && All(IsBlank, trail)
    ensures lead + text + trail != "" ==> !IsEol((lead + text + trail)[|lead + text + trail| - 1])
  {
    var s := lead + text + trail;
    var last := if trail != "" then trail else if text != "" then text else lead;
    assert s != "" ==> s[|s| - 1] == last[|last| - 1];
  }

  /** A name, a colon and a value that does not end a line come apart as they were put together. */
  lemma FieldSplits(name: string, value: string, isH2: bool)
    requires ValidName(name, isH2)
    requires value == "" || !IsEol(value[|value| - 1])
    ensures SplitField(RStripEol(name + ":" + value + "\r\n"), isH2) == Some((name, value))
  {
    var line := name + ":" + value;
    RStripPadded(IsEol, line, "\r\n");
    if FieldName(name) {
      SplitOnceAt(name, ':', value);
    } else {
      SplitOnceAt(name[1..], ':', value);
      assert line[1..] == name[1..] + ":" + value;
      assert ":" + name[1..] == name;
    }
  }

  lemma FieldLineShape(f: Field, isH2: bool)
    requires ValidField(f, isH2)
    ensures '\n' !in FieldLine(f)
    ensures FieldLine(f) != "" && !IsSpace(FieldLine(f)[0])
  {
    hide Strip;
    var text := f.lead + f.value + f.trail;
    PaddedLine(f.lead, f.value, f.trail);
    assert FieldLine(f) == f.name + ":" + text;
    NameShape(f.name, isH2);
  }

  lemma NameShape(name: string, isH2: bool)
    requires ValidName(name, isH2)
    ensures '\n' !in name && name != "" && !IsSpace(name[0])
  {
    if !FieldName(name) {
      assert name == [name[0]] + name[1..];
    }
  }

  lemma FieldLineSplits(f: Field, isH2: bool)
    requires ValidField(f, isH2)
    ensures SplitField(RStripEol(FieldLine(f) + "\r\n"), isH2) == Some((f.name, f.lead + f.value + f.trail))
    ensures Strip(f.name) == f.name && Strip(f.lead + f.value + f.trail) == f.value
  {
    PaddedLine(f.lead, f.value, f.trail);
    FieldSplits(f.name, f.lead + f.value + f.trail, isH2);
    StripTrimmed(IsSpace, f.name);
  }

  lemma {:induction false} UnfoldReads(v: string, folds: seq<Fold>, t: string)
    requires forall i | 0 <= i < |folds| :: ValidFold(folds[i])
    requires StartsLine(t)
    ensures Unfold(v, FoldsWire(folds, t)) == (FoldedValue(v, folds), t)
    ensures EndsLf(Line(FoldsWire(folds, t)))
    decreases |folds|
  {
    if folds == [] {
    } else {
      var f := folds[0];
      PaddedLine(f.lead, f.text, f.trail);
      FirstLine(FoldLine(f), FoldsWire(folds[1..], t));
      UnfoldReads(v + " " + f.text, folds[1..], t);
    }
  }

  lemma FieldRead(f: Field, t: string, noCrlf: bool, isH2: bool)
    requires ValidField(f, isH2) && StartsLine(t)
    ensures StartsLine(FieldWire(f, t))
    ensures ParseFields(FieldWire(f, t), noCrlf, isH2)
         == Prepend(Header(f.name, FoldedValue(f.value, f.folds)), ParseFields(t, noCrlf, isH2))
  {
    var more := FoldsWire(f.folds, t);
    FieldLineShape(f, isH2);
    FirstLine(FieldLine(f), more);
    FieldLineSplits(f, isH2);
    UnfoldReads(f.value, f.folds, t);
    FieldStep(FieldWire(f, t), noCrlf, isH2, f.name, f.lead + f.value + f.trail);
  }

  /** One turn of the header loop. */
  lemma FieldStep(s: string, noCrlf: bool, isH2: bool, name: string, value: string)
    requires EndsLf(Line(s)) && Line(s) != "\r\n" && Line(s) != "\n"
    requires SplitField(RStripEol(Line(s)), isH2) == Some((name, value))
    requires EndsLf(Line(After(s)))
    ensures var unfolded := Unfold(Strip(value), After(s));
            ParseFields(s, noCrlf, isH2)
            == Prepend(Header(Strip(name), unfolded.0), ParseFields(unfolded.1, noCrlf, isH2))
  {
  }

  /** Header and trailer sections are read exactly, whatever follows them. */
  lemma {:induction false} SectionRead(fs: seq<Field>, t: string, noCrlf: bool, isH2: bool)
    requires ValidFields(fs, isH2)
    ensures ParseFields(SectionWire(fs, t), noCrlf, isH2) == Ok(HeadersOf(fs), t)
    ensures StartsLine(SectionWire(fs, t))
  {
    if fs == [] {
      FirstLine("", t);
      assert "" + "\r\n" + t == "\r\n" + t;
    } else {
      var f := fs[0];
      assert ValidField(f, isH2);
      var rest := SectionWire(fs[1..], t);
      SectionRead(fs[1..], t, noCrlf, isH2);
      FieldRead(f, rest, noCrlf, isH2);
    }
  }

  // ----------------------------------------------------- a cut header section is not

  /** Where continuation lines end does not depend on text after the next line. */
  lemma {:induction false} UnfoldCut(v: string, p: string, u: string)
    ensures Unfold(v, p).1 == "" || Unfold(v, p + u) == (Unfold(v, p).0, Unfold(v, p).1 + u)
    decreases |p|
  {
    if u == "" {
      assert p + u == p && Unfold(v, p).1 + u == Unfold(v, p).1;
    } else if LineEnd(p + u) > |p| {
      LineCut(p, u);
    } else {
      LineKept(p, u);
      if StartsBlank(Line(p)) {
        UnfoldCut(v + " " + Strip(Line(p)), After(p), u);
      }
    }
  }

  /** What an accepted section that does not start with its empty line starts with. */
  lemma FieldsTurn(s: string, noCrlf: bool, isH2: bool)
    requires ParseFields(s, noCrlf, isH2).Ok?
    requires Line(s) != "" && Line(s) != "\r\n" && Line(s) != "\n"
    ensures EndsLf(Line(s)) && EndsLf(Line(After(s)))
    ensures var pair := SplitField(RStripEol(Line(s)), isH2);
            pair.Some? &&
            var next := ParseFields(Unfold(Strip(pair.value.1), After(s)).1, noCrlf, isH2);
            next.Ok? && next.rest == ParseFields(s, noCrlf, isH2).rest
  {
  }

  /** A section that stops within its first line, or right after it. */
  lemma ShortSection(p: string, noCrlf: bool, isH2: bool)
    requires Line(p) != "\r\n" && Line(p) != "\n" && (noCrlf ==> p != "")
    requires !EndsLf(Line(p)) || (SplitField(RStripEol(Line(p)), isH2).Some? && !EndsLf(Line(After(p))))
    ensures ParseFields(p, noCrlf, isH2) == Incomplete
  {
  }

  /** The first line, and the one after it, on both sides of a cut they do not reach. */
  lemma TwoLinesKept(p: string, u: string, noCrlf: bool, isH2: bool) returns (name: string, value: string)
    requires p != "" && ParseFields(p + u, noCrlf, isH2).Ok? && |ParseFields(p + u, noCrlf, isH2).rest| < |u|
    ensures ParseFields(p, noCrlf, isH2) == Incomplete || (
              && Line(p) == Line(p + u) && After(p + u) == After(p) + u
              && Line(After(p)) == Line(After(p + u)) && EndsLf(Line(After(p))) && EndsLf(Line(p))
              && Line(p) != "\r\n" && Line(p) != "\n"
              && SplitField(RStripEol(Line(p)), isH2) == Some((name, value)))
  {
    hide Strip, RStripEol, SplitField, Unfold, Prepend;
    var s := p + u;
    name, value := "", "";
    if LineEnd(s) > |p| {
      LineCut(p, u);
      ShortSection(p, noCrlf, isH2);
    } else {
      LineKept(p, u);
      FieldsTurn(s, noCrlf, isH2);
      var pair := SplitField(RStripEol(Line(s)), isH2).value;
      name, value := pair.0, pair.1;
      if LineEnd(After(s)) > |After(p)| {
        LineCut(After(p), u);
        ShortSection(p, noCrlf, isH2);
      } else {
        LineKept(After(p), u);
      }
    }
  }

  /**
   For every text at all: if a header section ends beyond the cut, the part
   before the cut is incomplete, never accepted and never refused.
   */
  lemma {:induction false} FieldsCut(p: string, u: string, isH2: bool)
    requires ParseFields(p + u, false, isH2).Ok? && |ParseFields(p + u, false, isH2).rest| < |u|
    ensures ParseFields(p, false, isH2) == Incomplete
    decreases |p|
  {
    if p == "" {
    } else {
      hide Strip, RStripEol, SplitField, ParseFields;
      var name, value := TwoLinesKept(p, u, false, isH2);
      if ParseFields(p, false, isH2) != Incomplete {
        FieldStep(p, false, isH2, name, value);
        FieldsTurn(p + u, false, isH2);
        UnfoldCut(Strip(value), After(p), u);
        var q := Unfold(Strip(value), After(p)).1;
        if q == "" {
          ShortSection(q, false, isH2);
        } else {
          FieldsCut(q, u, isH2);
        }
      }
    }
  }

  /** No line of the text is a continuation line. */
  predicate FoldFree(s: string) {
    forall i | 0 <= i < |s| - 1 && s[i] == '\n' :: !IsBlank(s[i + 1])
  }

  lemma FoldFreeAfter(s: string)
    requires FoldFree(s) && EndsLf(Line(s))
    ensures FoldFree(After(s)) && !StartsBlank(Line(After(s)))
  {
    var a := After(s);
    assert s[LineEnd(s) - 1] == '\n';
    forall i | 0 <= i < |a| - 1 && a[i] == '\n' ensures !IsBlank(a[i + 1]) {
      assert a[i] == s[LineEnd(s) + i] && a[i + 1] == s[LineEnd(s) + i + 1];
    }
  }

  /** The same for trailer sections, which may end at the end of the text, if nothing is folded. */
  lemma {:induction false} TrailerCut(p: string, u: string)
    requires p != "" && FoldFree(p + u)
    requires ParseFields(p + u, true, false).Ok? && |ParseFields(p + u, true, false).rest| < |u|
    ensures ParseFields(p, true, false) == Incomplete
    decreases |p|
  {
    hide Strip, RStripEol, SplitField, ParseFields, FoldFree;
    var name, value := TwoLinesKept(p, u, true, false);
    if ParseFields(p, true, false) == Incomplete {
    } else {
      FieldStep(p, true, false, name, value);
      FieldsTurn(p + u, true, false);
      FoldFreeAfter(p + u);
      TrailerCut(After(p), u);
    }
  }

  lemma LineThenFoldFree(line: string, rest: string)
    requires '\n' !in line && FoldFree(rest) && (rest == "" || !IsBlank(rest[0]))
    ensures FoldFree(line + "\r\n" + rest)
  {
    var s := line + "\r\n" + rest;
    var n := |line| + 2;
    assert forall i | 0 <= i < |line| :: s[i] == line[i];
    forall i | 0 <= i < |s| - 1 && s[i] == '\n' ensures !IsBlank(s[i + 1]) {
      if i >= n {
        assert s[i] == rest[i - n] && s[i + 1] == rest[i + 1 - n];
      }
    }
  }

  lemma {:induction false} UnfoldedIsFoldFree(fs: seq<Field>)
    requires ValidFields(fs, false) && Unfolded(fs)
    ensures FoldFree(SectionWire(fs, ""))
    ensures SectionWire(fs, "") != "" && !IsBlank(SectionWire(fs, "")[0])
  {
    if fs == [] {
    } else {
      var f := fs[0];
      assert ValidField(f, false) && f.folds == [];
      FieldLineShape(f, false);
      UnfoldedIsFoldFree(fs[1..]);
      LineThenFoldFree(FieldLine(f), SectionWire(fs[1..], ""));
    }
  }

  /** A trailer section with a continuation line, cut right after the first one. */
  function CutAfterFold(fs: seq<Field>): string
    requires !Unfolded(fs)
  {
    if fs[0].folds != [] then FieldLine(fs[0]) + "\r\n" + (FoldLine(fs[0].folds[0]) + "\r\n" + "")
    else FieldWire(fs[0], CutAfterFold(fs[1..]))
  }

  lemma FoldedFieldAccepted(f: Field)
    requires ValidField(f, false) && f.folds != []
    ensures var s := FieldLine(f) + "\r\n" + (FoldLine(f.folds[0]) + "\r\n" + "");
            StartsLine(s) && ParseFields(s, true, false).Ok?
  {
    hide Strip, RStripEol, SplitField, FieldLine, FoldLine;
    var g := f.folds[0];
    var more := FoldLine(g) + "\r\n" + "";
    FieldLineShape(f, false);
    FirstLine(FieldLine(f), more);
    FieldLineSplits(f, false);
    FoldLineShape(g);
    FirstLine(FoldLine(g), "");
    FieldStep(FieldLine(f) + "\r\n" + more, true, false, f.name, f.lead + f.value + f.trail);
    assert Unfold(f.value, more) == (f.value + " " + Strip(Line(more)), "");
  }

  lemma FoldLineShape(g: Fold)
    requires ValidFold(g)
    ensures '\n' !in FoldLine(g) && StartsBlank(FoldLine(g))
  {
    PaddedLine(g.lead, g.text, g.trail);
  }

  lemma {:induction false} CutAfterFoldIsPrefix(fs: seq<Field>)
    requires !Unfolded(fs)
    ensures CutAfterFold(fs) < SectionWire(fs, "")
  {
    hide FieldLine, FoldLine;
    var f := fs[0];
    var line := FieldLine(f) + "\r\n";
    var rest := SectionWire(fs[1..], "");
    if f.folds != [] {
      var more := FoldsWire(f.folds[1..], rest);
      SectionEndsOnLine(fs[1..]);
      FoldsAppend(f.folds[1..], "", rest);
      assert "" + rest == rest;
      var g := FoldLine(f.folds[0]) + "\r\n";
      assert line + (g + more) == line + (g + "") + more;
    } else {
      CutAfterFoldIsPrefix(fs[1..]);
      var cut := CutAfterFold(fs[1..]);
      assert rest == cut + rest[|cut|..];
      assert line + rest == line + cut + rest[|cut|..];
    }
  }

  lemma {:induction false} SectionEndsOnLine(fs: seq<Field>)
    ensures |SectionWire(fs, "")| >= 2
  {
    if fs == [] {
    } else {
      SectionEndsOnLine(fs[1..]);
    }
  }

  /** Such a cut section is accepted. */
  lemma {:induction false} CutAfterFoldAccepted(fs: seq<Field>)
    requires ValidFields(fs, false) && !Unfolded(fs)
    ensures StartsLine(CutAfterFold(fs))
    ensures ParseFields(CutAfterFold(fs), true, false).Ok?
  {
    var f := fs[0];
    assert ValidField(f, false);
    if f.folds != [] {
      FoldedFieldAccepted(f);
    } else {
      CutAfterFoldAccepted(fs[1..]);
      FieldRead(f, CutAfterFold(fs[1..]), true, false);
    }
  }
}
