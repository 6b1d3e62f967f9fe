/**
 Queueing HTTP/2 requests without a lock. Each enqueuing thread appends bytes,
 appends a body record, then reads and writes the request counter; the poller
 compares its index with the counter and then uses it on both lists. Any
 interleaving of these steps is a run.
 */
module Enqueue {

  type Tid = nat

  /** Where an enqueuer is. */
  datatype Pc = Idle | BytesAppended(request: nat) | BodyAppended | CounterRead(value: nat)

  datatype Poller = Waiting | Cleared

  /** Both lists hold the number of the request each element belongs to; `writes` counts counter writes. */
  datatype State = State(
    requestBuffers: seq<nat>, bodyBuffers: seq<nat>, nrreq: nat, curReqNum: nat,
    threads: map<Tid, Pc>, poller: Poller, writes: nat)

  datatype Event =
    | AppendBytes(t: Tid, request: nat)
    | AppendBody(t: Tid)
    | ReadCounter(t: Tid)
    | WriteCounter(t: Tid)
    | Check
    | Access(finished: bool)

  function Start(enqueuers: set<Tid>): State {
    State([], [], 0, 0, map t | t in enqueuers :: Idle, Waiting, 0)
  }

  /** One atomic step; an event that is not possible changes nothing. */
  function Step(s: State, e: Event): State {
    match e
    case AppendBytes(t, request) =>
      if t in s.threads && s.threads[t].Idle?
      then s.(requestBuffers := s.requestBuffers + [request], threads := s.threads[t := BytesAppended(request)])
      else s
    case AppendBody(t) =>
      if t in s.threads && s.threads[t].BytesAppended?
      then s.(bodyBuffers := s.bodyBuffers + [s.threads[t].request], threads := s.threads[t := BodyAppended])
      else s
    case ReadCounter(t) =>
      if t in s.threads && s.threads[t].BodyAppended?
      then s.(threads := s.threads[t := CounterRead(s.nrreq)])
      else s
    case WriteCounter(t) =>
      if t in s.threads && s.threads[t].CounterRead?
      then s.(nrreq := s.threads[t].value + 1, threads := s.threads[t := Idle], writes := s.writes + 1)
      else s
    case Check =>
      if s.poller.Waiting? && s.curReqNum < s.nrreq then s.(poller := Cleared) else s
    case Access(finished) =>
      if s.poller.Cleared?
      then s.(poller := Waiting, curReqNum := if finished then s.curReqNum + 1 else s.curReqNum)
      else s
  }

  function Run(enqueuers: set<Tid>, events: seq<Event>): State {
    if events == [] then Start(enqueuers)
    else Step(Run(enqueuers, events[..|events| - 1]), events[|events| - 1])
  }

  // -------------------------------------------------------------------- index safety

  function Members(threads: map<Tid, Pc>, p: Pc -> bool): set<Tid> {
    set t | t in threads && p(threads[t])
  }

  lemma MemberMoves(threads: map<Tid, Pc>, p: Pc -> bool, t: Tid, pc: Pc)
    requires t in threads
    ensures |Members(threads[t := pc], p)|
         == |Members(threads, p)| - (if p(threads[t]) then 1 else 0) + (if p(pc) then 1 else 0)
  {
    OtherMembers(threads, p, t, pc);
    hide Members;
    var before, after := Members(threads, p), Members(threads[t := pc], p);
    var others := before - {t};
    assert before == if p(threads[t]) then others + {t} else others;
    assert after == if p(pc) then others + {t} else others;
  }

  lemma OtherMembers(threads: map<Tid, Pc>, p: Pc -> bool, t: Tid, pc: Pc)
    requires t in threads
    ensures Members(threads[t := pc], p) - {t} == Members(threads, p) - {t}
    ensures (t in Members(threads, p) <==> p(threads[t])) && (t in Members(threads[t := pc], p) <==> p(pc))
  {
  }

  /** Threads that have appended bytes but no body record yet. */
  function Halfway(s: State): set<Tid> {
    Members(s.threads, (pc: Pc) => pc.BytesAppended?)
  }

  /** Threads whose body record the counter does not include yet. */
  function Owing(s: State): set<Tid> {
    Members(s.threads, (pc: Pc) => pc.BodyAppended? || pc.CounterRead?)
  }

  predicate Inv(s: State) {
    && |s.requestBuffers| == |s.bodyBuffers| + |Halfway(s)|
    && |s.bodyBuffers| == s.writes + |Owing(s)|
    && s.nrreq <= s.writes
    && (forall t | t in s.threads && s.threads[t].CounterRead? :: s.threads[t].value <= s.writes)
    && (s.poller.Cleared? ==> s.curReqNum < |s.bodyBuffers|)
  }

  function HalfwayCount(pc: Pc): nat {
    if pc.BytesAppended? then 1 else 0
  }

  function OwingCount(pc: Pc): nat {
    if pc.BodyAppended? || pc.CounterRead? then 1 else 0
  }

  lemma ThreadMoves(s: State, r: State, t: Tid, pc: Pc)
    requires t in s.threads && r.threads == s.threads[t := pc]
    ensures |Halfway(r)| == |Halfway(s)| - HalfwayCount(s.threads[t]) + HalfwayCount(pc)
    ensures |Owing(r)| == |Owing(s)| - OwingCount(s.threads[t]) + OwingCount(pc)
  {
    hide Members;
    MemberMoves(s.threads, (pc: Pc) => pc.BytesAppended?, t, pc);
    MemberMoves(s.threads, (pc: Pc) => pc.BodyAppended? || pc.CounterRead?, t, pc);
  }

  lemma StepKeeps(s: State, e: Event)
    requires Inv(s)
    ensures Inv(Step(s, e))
  {
    hide Halfway, Owing;
    var r := Step(s, e);
    if r == s {
    } else if e.Check? || e.Access? {
      SameThreads(s, r);
    } else {
      ThreadMoves(s, r, e.t, r.threads[e.t]);
    }
  }

  lemma SameThreads(s: State, r: State)
    requires r.threads == s.threads
    ensures Halfway(r) == Halfway(s) && Owing(r) == Owing(s)
  {
  }

  lemma {:induction false} RunKeeps(enqueuers: set<Tid>, events: seq<Event>)
    ensures Inv(Run(enqueuers, events))
  {
    hide Inv, Step;
    if events == [] {
      StartHolds(enqueuers);
    } else {
      RunKeeps(enqueuers, events[..|events| - 1]);
      StepKeeps(Run(enqueuers, events[..|events| - 1]), events[|events| - 1]);
    }
  }

  lemma StartHolds(enqueuers: set<Tid>)
    ensures Inv(Start(enqueuers))
  {
    assert Halfway(Start(enqueuers)) == {} && Owing(Start(enqueuers)) == {};
  }

  /**
   Whatever the interleaving and however many enqueuers: an index the poller
   has checked against the counter is within both lists, and the counter never
   runs ahead of them, although its updates can be lost.
   */
  lemma IndexSafety(enqueuers: set<Tid>, events: seq<Event>)
    ensures var s := Run(enqueuers, events);
            && s.nrreq <= |s.bodyBuffers| <= |s.requestBuffers|
            && (s.poller.Cleared? ==> s.curReqNum < |s.bodyBuffers| && s.curReqNum < |s.requestBuffers|)
  {
    hide Run;
    RunKeeps(enqueuers, events);
  }

  // ------------------------------------------------------------------------- pairing

  /** Both lists have the same request at every index they share. */
  predicate Paired(s: State) {
    forall i | 0 <= i < |s.requestBuffers| && i < |s.bodyBuffers| :: s.requestBuffers[i] == s.bodyBuffers[i]
  }

  /** No queued request is missing from the counter once every enqueuer is done. */
  predicate AllCounted(s: State) {
    (forall t | t in s.threads :: s.threads[t].Idle?) ==> s.nrreq == |s.bodyBuffers|
  }

  /** With one enqueuer the lists, its position and the counter determine each other. */
  predicate Sole(s: State, t: Tid) {
    && s.threads.Keys == {t}
    && match s.threads[t]
       case Idle => s.requestBuffers == s.bodyBuffers && s.nrreq == |s.bodyBuffers|
       case BytesAppended(request) => s.requestBuffers == s.bodyBuffers + [request] && s.nrreq == |s.bodyBuffers|
       case BodyAppended => s.requestBuffers == s.bodyBuffers && s.nrreq + 1 == |s.bodyBuffers|
       case CounterRead(value) =>
         s.requestBuffers == s.bodyBuffers && s.nrreq + 1 == |s.bodyBuffers| && value == s.nrreq
  }

  lemma SoleStep(s: State, t: Tid, e: Event)
    requires Sole(s, t)
    ensures Sole(Step(s, e), t)
  {
  }

  lemma {:induction false} SoleRun(t: Tid, events: seq<Event>)
    ensures Sole(Run({t}, events), t)
  {
    hide Step;
    if events == [] {
      assert Start({t}).threads.Keys == {t};
    } else {
      SoleRun(t, events[..|events| - 1]);
      SoleStep(Run({t}, events[..|events| - 1]), t, events[|events| - 1]);
    }
  }

  lemma {:induction false} NobodyRun(events: seq<Event>)
    ensures var s := Run({}, events); s.threads == map[] && s.bodyBuffers == [] && s.nrreq == 0
  {
    if events == [] {
    } else {
      NobodyRun(events[..|events| - 1]);
    }
  }

  /** Two enqueuers: bytes one after the other, body records the other way round. */
  lemma TwoMix(enqueuers: set<Tid>, a: Tid, b: Tid)
    requires a in enqueuers && b in enqueuers && a != b
    ensures !Paired(Run(enqueuers, [AppendBytes(a, 1), AppendBytes(b, 2), AppendBody(b), AppendBody(a)]))
  {
    var e := [AppendBytes(a, 1), AppendBytes(b, 2), AppendBody(b), AppendBody(a)];
    RunFour(enqueuers, e);
    var s := Run(enqueuers, e);
    assert s.requestBuffers[0] == 1 && s.bodyBuffers[0] == 2;
  }

  lemma RunFour(enqueuers: set<Tid>, e: seq<Event>)
    requires |e| == 4
    ensures Run(enqueuers, e) == Step(Step(Step(Step(Start(enqueuers), e[0]), e[1]), e[2]), e[3])
  {
    hide Step;
    assert e[..3][..2] == e[..2] && e[..2][..1] == e[..1] && e[..1][..0] == [];
    assert Run(enqueuers, e[..1]) == Step(Run(enqueuers, []), e[0]);
    assert Run(enqueuers, e[..2]) == Step(Run(enqueuers, e[..1]), e[1]);
    assert Run(enqueuers, e[..3]) == Step(Run(enqueuers, e[..2]), e[2]);
  }

  /**
   Bytes and body records stay paired over every run exactly when there is at
   most one enqueuer.
   */
  lemma PairingIff(enqueuers: set<Tid>)
    ensures (forall events :: Paired(Run(enqueuers, events))) <==> |enqueuers| <= 1
  {
    hide Run;
    if |enqueuers| <= 1 {
      forall events ensures Paired(Run(enqueuers, events)) {
        if enqueuers == {} {
          NobodyRun(events);
        } else {
          var t := OnlyOne(enqueuers);
          SoleRun(t, events);
        }
      }
    } else {
      var a, b := TwoOf(enqueuers);
      TwoMix(enqueuers, a, b);
    }
  }

  lemma OnlyOne(enqueuers: set<Tid>) returns (t: Tid)
    requires enqueuers != {} && |enqueuers| <= 1
    ensures enqueuers == {t}
  {
    t :| t in enqueuers;
    assert |enqueuers - {t}| == 0;
  }

  lemma TwoOf(enqueuers: set<Tid>) returns (a: Tid, b: Tid)
    requires |enqueuers| > 1
    ensures a in enqueuers && b in enqueuers && a != b
  {
    a :| a in enqueuers;
    assert |enqueuers - {a}| > 0;
    b :| b in enqueuers - {a};
  }

  /** Two enqueuers that read the counter before either writes it. */
  function LostUpdate(a: Tid, b: Tid): seq<Event> {
    [AppendBytes(a, 1), AppendBody(a), AppendBytes(b, 2), AppendBody(b)]
    + [ReadCounter(a), ReadCounter(b), WriteCounter(a), WriteCounter(b)]
  }

  lemma RunOn(enqueuers: set<Tid>, first: seq<Event>, e: seq<Event>)
    requires |e| == 4
    ensures Run(enqueuers, first + e) == Step(Step(Step(Step(Run(enqueuers, first), e[0]), e[1]), e[2]), e[3])
  {
    hide Step;
    var n := |first|;
    var all := first + e;
    assert all[..n] == first && all[..n + 4] == all;
    forall k | n <= k < n + 4 ensures Run(enqueuers, all[..k + 1]) == Step(Run(enqueuers, all[..k]), all[k]) {
      assert all[..k + 1][..k] == all[..k];
    }
  }

  /**
   Every queued request comes to be counted, so that it can be sent, exactly
   when there is at most one enqueuer.
   */
  lemma CountingIff(enqueuers: set<Tid>)
    ensures (forall events :: AllCounted(Run(enqueuers, events))) <==> |enqueuers| <= 1
  {
    hide Run;
    if |enqueuers| <= 1 {
      forall events ensures AllCounted(Run(enqueuers, events)) {
        if enqueuers == {} {
          NobodyRun(events);
        } else {
          var t := OnlyOne(enqueuers);
          SoleRun(t, events);
        }
      }
    } else {
      var a, b := TwoOf(enqueuers);
      TwoLose(enqueuers, a, b);
    }
  }

  lemma TwoLose(enqueuers: set<Tid>, a: Tid, b: Tid)
    requires a in enqueuers && b in enqueuers && a != b
    ensures !AllCounted(Run(enqueuers, LostUpdate(a, b)))
  {
    hide Run;
    var first := [AppendBytes(a, 1), AppendBody(a), AppendBytes(b, 2), AppendBody(b)];
    RunFour(enqueuers, first);
    RunOn(enqueuers, first, [ReadCounter(a), ReadCounter(b), WriteCounter(a), WriteCounter(b)]);
    var mid := Run(enqueuers, first);
    assert mid.nrreq == 0 && |mid.bodyBuffers| == 2;
    assert mid.threads == Start(enqueuers).threads[a := BodyAppended][b := BodyAppended];
    var end := Run(enqueuers, LostUpdate(a, b));
    assert end.nrreq == 1 && |end.bodyBuffers| == 2;
    assert forall t | t in end.threads :: end.threads[t].Idle?;
  }
}
