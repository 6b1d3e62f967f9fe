/**
 The HTTP/2 send queue empties: each call on a socket that takes something and
 a window that is open makes lexicographic progress, no other call undoes it,
 and only an entry with neither bytes nor a body stands in the way.
 */
module H2Drain {
  import opened Text
  import opened H2Send

  predicate Productive(env: Env) {
    env.accept >= 1 && env.maxFrame >= 1 && env.window >= 1
  }

  ghost predicate ProductiveFrom(env: nat -> Env, k: nat) {
    exists m: nat :: k <= m && Productive(env(m))
  }

  /** Productive calls keep coming, however many others there are in between. */
  ghost predicate Recurs(env: nat -> Env) {
    forall k: nat :: ProductiveFrom(env, k)
  }

  /** An entry with nothing to send. */
  predicate Blank(q: Queue, i: nat)
    requires Shaped(q) && i < |q.buffers|
  {
    q.buffers[i] == [] && q.bodies[i].body.None?
  }

  predicate NoneBlank(q: Queue)
    requires Shaped(q)
  {
    forall i | q.cur <= i < |q.buffers| :: !Blank(q, i)
  }

  function EntriesLeft(q: Queue): nat
    requires Shaped(q)
  {
    |q.buffers| - q.cur
  }

  /** One more than the body left, or zero if there is none. */
  function BodyLeft(q: Queue): nat
    requires Shaped(q)
  {
    if q.cur < |q.buffers| && q.bodies[q.cur].body.Some? then |q.bodies[q.cur].body.value| + 1 else 0
  }

  function BufferLeft(q: Queue): nat
    requires Shaped(q)
  {
    if q.cur < |q.buffers| then |q.buffers[q.cur]| else 0
  }

  predicate Same(q: Queue, r: Queue)
    requires Shaped(q) && Shaped(r)
  {
    EntriesLeft(q) == EntriesLeft(r) && BodyLeft(q) == BodyLeft(r) && BufferLeft(q) == BufferLeft(r)
  }

  predicate Less(q: Queue, r: Queue)
    requires Shaped(q) && Shaped(r)
  {
    EntriesLeft(q) < EntriesLeft(r)
    || (EntriesLeft(q) == EntriesLeft(r)
        && (BodyLeft(q) < BodyLeft(r) || (BodyLeft(q) == BodyLeft(r) && BufferLeft(q) < BufferLeft(r))))
  }

  /** Each productive call lowers (entries left, body left plus one, buffer left), and no call raises it. */
  lemma SendDataProgress(q: Queue, env: Env)
    requires Shaped(q) && q.cur < |q.buffers| && NoneBlank(q)
    ensures var r := SendData(q, env);
            NoneBlank(r) && (Less(r, q) || (Same(r, q) && !Productive(env)))
  {
    hide SendData;
    assert !Blank(q, q.cur);
    SendDataLowers(q, env);
    SendDataKeepsFull(q, env);
  }

  lemma SendDataLowers(q: Queue, env: Env)
    requires Shaped(q) && q.cur < |q.buffers| && !Blank(q, q.cur)
    ensures var r := SendData(q, env); Less(r, q) || (Same(r, q) && !Productive(env))
  {
    hide FrameBytes, PrepareFrame, BytesSent;
    BytesLower(q, env);
    if q.bodies[q.cur].body.Some? {
      PreparedIff(q.bodies[q.cur], env);
    }
  }

  /** What sending the bytes of the current entry achieves. */
  lemma BytesLower(q: Queue, env: Env)
    requires Shaped(q) && q.cur < |q.buffers|
    ensures var before, after := q.buffers[q.cur], BytesSent(q, env).buffers[q.cur];
            && |after| <= |before| && (before != [] && env.accept >= 1 ==> |after| < |before|)
            && BytesSent(q, env).cur == if before != [] && after == [] then q.cur + 1 else q.cur
  {
  }

  /** Only an entry with nothing to send is blank after a call, and it is never passed. */
  lemma StaysBlank(q: Queue, env: Env, j: nat)
    requires Shaped(q) && q.cur < |q.buffers| && q.cur <= j < |q.buffers|
    ensures var r := SendData(q, env);
            q.cur <= r.cur && (Blank(q, j) ==> r.cur <= j) && (r.cur <= j ==> Blank(r, j) == Blank(q, j))
  {
    hide FrameBytes;
    FrameNotEmpty();
  }

  lemma SendDataKeepsFull(q: Queue, env: Env)
    requires Shaped(q) && q.cur < |q.buffers| && NoneBlank(q)
    ensures NoneBlank(SendData(q, env))
  {
    hide SendData;
    var r := SendData(q, env);
    StaysBlank(q, env, q.cur);
    forall j | r.cur <= j < |r.buffers| ensures !Blank(r, j) {
      StaysBlank(q, env, j);
    }
  }

  lemma FrameNotEmpty()
    ensures forall f :: FrameBytes(f) != []
  {
  }

  function SendIfAny(q: Queue, env: Env): (r: Queue)
    requires Shaped(q)
    ensures Shaped(r) && |r.buffers| == |q.buffers|
  {
    if q.cur < |q.buffers| then SendData(q, env) else q
  }

  /** n calls, the k-th from now in circumstances env(at + k). */
  function Calls(q: Queue, env: nat -> Env, at: nat, n: nat): (r: Queue)
    requires Shaped(q)
    ensures Shaped(r) && |r.buffers| == |q.buffers|
    decreases n
  {
    if n == 0 then q else Calls(SendIfAny(q, env(at)), env, at + 1, n - 1)
  }

  lemma {:induction false} CallsSplit(q: Queue, env: nat -> Env, at: nat, n: nat, m: nat)
    requires Shaped(q)
    ensures Calls(q, env, at, n + m) == Calls(Calls(q, env, at, n), env, at + n, m)
    decreases n
  {
    hide SendIfAny;
    if n == 0 {
    } else {
      CallsSplit(SendIfAny(q, env(at)), env, at + 1, n - 1, m);
    }
  }

  /** No number of calls undoes what was achieved. */
  lemma {:induction false} CallsNoWorse(q: Queue, env: nat -> Env, at: nat, n: nat)
    requires Shaped(q) && NoneBlank(q)
    ensures var r := Calls(q, env, at, n); NoneBlank(r) && (Less(r, q) || Same(r, q))
    decreases n
  {
    hide SendData, NoneBlank;
    if n == 0 {
    } else {
      if q.cur < |q.buffers| {
        SendDataProgress(q, env(at));
      }
      CallsNoWorse(SendIfAny(q, env(at)), env, at + 1, n - 1);
    }
  }

  lemma {:induction false} Drains(q: Queue, env: nat -> Env, at: nat) returns (n: nat)
    requires Shaped(q) && NoneBlank(q) && Recurs(env)
    ensures Calls(q, env, at, n).cur == |q.buffers|
    decreases EntriesLeft(q), BodyLeft(q), BufferLeft(q)
  {
    hide SendData, NoneBlank, Calls, Productive;
    if q.cur == |q.buffers| {
      n := 0;
      NoCalls(q, env, at);
    } else {
      assert ProductiveFrom(env, at);
      var m: nat :| at <= m && Productive(env(m));
      var before := Calls(q, env, at, m - at);
      CallsNoWorse(q, env, at, m - at);
      if before.cur == |q.buffers| {
        n := m - at;
      } else {
        SendDataProgress(before, env(m));
        var rest := Drains(SendData(before, env(m)), env, m + 1);
        OneCall(before, env, m, rest);
        n := m - at + (rest + 1);
        CallsSplit(q, env, at, m - at, rest + 1);
      }
    }
  }

  lemma NoCalls(q: Queue, env: nat -> Env, at: nat)
    requires Shaped(q)
    ensures Calls(q, env, at, 0) == q
  {
  }

  lemma OneCall(q: Queue, env: nat -> Env, at: nat, n: nat)
    requires Shaped(q) && q.cur < |q.buffers|
    ensures Calls(q, env, at, n + 1) == Calls(SendData(q, env(at)), env, at + 1, n)
  {
  }

  lemma {:induction false} BlankBlocks(q: Queue, env: nat -> Env, at: nat, n: nat, j: nat)
    requires Shaped(q) && q.cur <= j < |q.buffers| && Blank(q, j)
    ensures Calls(q, env, at, n).cur <= j
    decreases n
  {
    hide SendData, Blank;
    if n == 0 {
    } else {
      if q.cur < |q.buffers| {
        StaysBlank(q, env(at), j);
      }
      BlankBlocks(SendIfAny(q, env(at)), env, at + 1, n - 1, j);
    }
  }

  predicate BlankEntry(e: Entry) {
    e.head == [] && e.body.body.None?
  }

  /** Entries that were added blank still wait and are blank, and no other that waits is. */
  predicate BlanksKept(es: seq<Entry>, q: Queue)
    requires Shaped(q)
  {
    && |q.buffers| == |es|
    && forall i | 0 <= i < |es| ::
         if BlankEntry(es[i]) then q.cur <= i && Blank(q, i) else q.cur <= i ==> !Blank(q, i)
  }

  lemma SendKeepsBlanks(es: seq<Entry>, q: Queue, env: Env)
    requires Shaped(q) && q.cur < |q.buffers| && BlanksKept(es, q)
    ensures BlanksKept(es, SendData(q, env))
  {
    hide SendData, Blank;
    StaysBlank(q, env, q.cur);
    forall j | q.cur <= j < |q.buffers|
      ensures var r := SendData(q, env);
              (Blank(q, j) ==> r.cur <= j) && (r.cur <= j ==> Blank(r, j) == Blank(q, j))
    {
      StaysBlank(q, env, j);
    }
  }

  lemma AddKeepsBlanks(es: seq<Entry>, q: Queue, e: Entry)
    requires Shaped(q) && BlanksKept(es, q)
    ensures BlanksKept(es + [e], Enqueue(q, e))
  {
    var r := Enqueue(q, e);
    forall i | 0 <= i < |es| ensures Blank(r, i) == Blank(q, i) {
    }
  }

  lemma {:induction false} RunKeepsBlanks(events: seq<Event>)
    ensures BlanksKept(Added(events), Run(events))
  {
    hide SendData, Enqueue, BlanksKept;
    if events == [] {
      assert BlanksKept([], EMPTY) by { NoBlanks(); }
    } else {
      var before := events[..|events| - 1];
      RunKeepsBlanks(before);
      match events[|events| - 1] {
        case Send(env) =>
          if Run(before).cur < |Run(before).buffers| {
            SendKeepsBlanks(Added(before), Run(before), env);
          }
        case Add(entry) => AddKeepsBlanks(Added(before), Run(before), entry);
      }
    }
  }

  lemma NoBlanks()
    ensures BlanksKept([], EMPTY)
  {
  }

  ghost predicate Empties(q: Queue, env: nat -> Env)
    requires Shaped(q)
  {
    exists n: nat :: Calls(q, env, 0, n).cur == |q.buffers|
  }

  /**
   From any queue that sends and requests have led to, however the socket and
   the window vary from then on, as long as calls that get something through
   keep coming: the queue empties exactly when no entry ever added is both
   empty and bodiless.
   */
  lemma DrainsIff(events: seq<Event>, env: nat -> Env)
    requires Recurs(env)
    ensures Empties(Run(events), env)
            <==> (forall i | 0 <= i < |Added(events)| :: !BlankEntry(Added(events)[i]))
  {
    hide Calls, Run, Added, BlankEntry, Blank;
    var es, q := Added(events), Run(events);
    RunKeepsBlanks(events);
    if forall i | 0 <= i < |es| :: !BlankEntry(es[i]) {
      assert NoneBlank(q);
      var n := Drains(q, env, 0);
      assert Calls(q, env, 0, n).cur == |q.buffers|;
    } else {
      var j :| 0 <= j < |es| && BlankEntry(es[j]);
      forall n: nat ensures Calls(q, env, 0, n).cur != |q.buffers| {
        BlankBlocks(q, env, 0, n, j);
      }
    }
  }

  lemma {:induction false} CallsKeep(es: seq<Entry>, q: Queue, env: nat -> Env, at: nat, n: nat)
    requires Inv(es, q)
    ensures Inv(es, Calls(q, env, at, n))
    decreases n
  {
    hide SendData, EntryKept, WireKept;
    if n == 0 {
    } else {
      if q.cur < |q.buffers| {
        SendDataKeeps(es, q, env(at));
      }
      CallsKeep(es, SendIfAny(q, env(at)), env, at + 1, n - 1);
    }
  }

  /** When the queue is empty, every entry is on the wire whole and in order, its body wholly framed. */
  lemma DrainedWire(events: seq<Event>, env: nat -> Env, n: nat)
    requires Calls(Run(events), env, 0, n).cur == |Added(events)|
    ensures var es, q := Added(events), Calls(Run(events), env, 0, n);
            && |q.frames| == |es| && q.wire == WireOf(es, q.frames, |es|)
            && forall i | 0 <= i < |es| :: GoodFrames(es[i], q.frames[i], None)
  {
    hide Calls, GoodFrames, Run, Added;
    var es, q := Added(events), Calls(Run(events), env, 0, n);
    RunKeeps(events);
    CallsKeep(es, Run(events), env, 0, n);
    forall i | 0 <= i < |es| ensures GoodFrames(es[i], q.frames[i], None) {
      assert EntryKept(es[i], q, i);
    }
  }
}
