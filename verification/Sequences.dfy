/** Concatenation of many sequences. */
module Sequences {
  function Concat<T>(parts: seq<seq<T>>): seq<T> {
    if parts == [] then [] else parts[0] + Concat(parts[1..])
  }

  lemma {:induction false} ConcatTakes(texts: seq<string>, k: nat)
    requires 0 < k <= |texts|
    ensures Concat(texts[..k]) == texts[0] + Concat(texts[1..][..k - 1])
  {
    assert texts[..k][1..] == texts[1..][..k - 1];
  }

  lemma ConcatNothing<T>()
    ensures Concat<T>([]) == []
  {
  }

  lemma {:induction false} ConcatSplit<T>(a: seq<seq<T>>, b: seq<seq<T>>)
    ensures Concat(a + b) == Concat(a) + Concat(b)
  {
    if a == [] {
      assert a + b == b;
    } else {
      assert (a + b)[1..] == a[1..] + b;
      ConcatSplit(a[1..], b);
    }
  }

  lemma ConcatOne<T>(part: seq<T>)
    ensures Concat([part]) == part
  {
    assert part + [] == part && [part][1..] == [];
  }

  lemma {:induction false} ConcatSnoc<T>(parts: seq<seq<T>>)
    requires parts != []
    ensures Concat(parts) == Concat(parts[..|parts| - 1]) + parts[|parts| - 1]
  {
    hide Concat;
    var last := parts[|parts| - 1];
    assert parts == parts[..|parts| - 1] + [last];
    ConcatSplit(parts[..|parts| - 1], [last]);
    ConcatOne(last);
  }
}
