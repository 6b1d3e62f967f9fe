/**
 The client's pacing: no entry is sent before its time slot, and consecutive
 segments keep the configured gap, on any clock that does not run backwards.
 */
module Pacing {

  /** `segmentGap` is in milliseconds; `rps` zero means no limit. */
  datatype Pace = Pace(rps: real, segmentGap: nat)

  /**
   The client and its clock. `ready` says that the last check allowed a send;
   `sends` holds the times of all sends so far.
   */
  datatype Client = Client(
    now: real, start: real, cur: nat, nrreq: nat, lastSegment: real, ready: bool, sends: seq<real>)

  predicate Legal(p: Pace) {
    p.rps >= 0.0
  }

  /** `next_request_time` */
  function NextTime(p: Pace, c: Client): real
    requires Legal(p)
  {
    if p.rps == 0.0 then c.start else c.start + c.cur as real / p.rps
  }

  function Gap(p: Pace): real {
    p.segmentGap as real / 1000.0
  }

  /** `_has_pending_data`, with the clock read at t1 and again at t2. */
  predicate HasPending(p: Pace, c: Client, t1: real, t2: real)
    requires Legal(p)
  {
    c.cur < c.nrreq && t1 >= NextTime(p, c) && (p.segmentGap == 0 || t2 - c.lastSegment >= Gap(p))
  }

  datatype Event =
    | Wait(dt: real)
    | Queue
    | Check(dt: real)
    | Send(dt: real, finished: bool)

  predicate Forward(e: Event) {
    !e.Queue? ==> e.dt >= 0.0
  }

  function Step(p: Pace, c: Client, e: Event): Client
    requires Legal(p)
  {
    match e
    case Wait(dt) => c.(now := c.now + dt)
    case Queue => c.(nrreq := c.nrreq + 1)
    case Check(dt) => c.(now := c.now + dt, ready := HasPending(p, c, c.now, c.now + dt))
    case Send(dt, finished) =>
      if !c.ready then c
      else c.(now := c.now + dt, lastSegment := c.now + dt, ready := false, sends := c.sends + [c.now],
              cur := if finished then c.cur + 1 else c.cur)
  }

  function Run(p: Pace, start: real, events: seq<Event>): Client
    requires Legal(p)
  {
    if events == [] then Client(start, start, 0, 0, 0.0, false, [])
    else Step(p, Run(p, start, events[..|events| - 1]), events[|events| - 1])
  }

  /** How many time slots have begun, one after another, in the time elapsed. */
  function Slots(p: Pace, elapsed: real): real {
    p.rps * elapsed
  }

  predicate Inv(p: Pace, c: Client)
    requires Legal(p)
  {
    && c.now >= c.start
    && (p.rps > 0.0 ==> c.cur as real <= Slots(p, c.now - c.start) + 1.0)
    && (c.ready && p.rps > 0.0 ==> c.cur as real <= Slots(p, c.now - c.start))
    && (c.sends != [] ==> c.sends[|c.sends| - 1] <= c.lastSegment)
    && (c.ready && p.segmentGap > 0 ==> c.now - c.lastSegment >= Gap(p))
    && (p.segmentGap > 0 ==> forall i | 0 <= i < |c.sends| - 1 :: c.sends[i + 1] - c.sends[i] >= Gap(p))
    && (forall i | 0 <= i < |c.sends| - 1 :: c.sends[i] <= c.sends[i + 1])
    && (c.sends != [] ==> c.lastSegment <= c.now)
  }

  lemma SlotsGrow(p: Pace, a: real, b: real)
    requires Legal(p) && a <= b
    ensures Slots(p, a) <= Slots(p, b)
  {
    assert p.rps * (b - a) >= 0.0;
  }

  lemma SlotReached(p: Pace, c: Client)
    requires Legal(p) && p.rps > 0.0 && c.now >= NextTime(p, c)
    ensures c.cur as real <= Slots(p, c.now - c.start)
  {
    var slot := c.cur as real / p.rps;
    assert Slots(p, slot) == c.cur as real;
    SlotsGrow(p, slot, c.now - c.start);
  }

  lemma StepKeeps(p: Pace, c: Client, e: Event)
    requires Legal(p) && Inv(p, c) && Forward(e)
    ensures Inv(p, Step(p, c, e))
  {
    hide Slots, Gap, NextTime;
    var r := Step(p, c, e);
    SlotsGrow(p, c.now - c.start, r.now - c.start);
    if e.Check? && r.ready && p.rps > 0.0 {
      SlotReached(p, c);
    }
  }

  lemma {:induction false} RunKeeps(p: Pace, start: real, events: seq<Event>)
    requires Legal(p) && forall i | 0 <= i < |events| :: Forward(events[i])
    ensures Inv(p, Run(p, start, events)) && Run(p, start, events).start == start
  {
    if events == [] {
    } else {
      hide Inv;
      RunKeeps(p, start, events[..|events| - 1]);
      StepKeeps(p, Run(p, start, events[..|events| - 1]), events[|events| - 1]);
    }
  }

  /**
   Over every run: at any time t no more than `rps * (t - start) + 1` entries are
   complete, and any two consecutive sends are at least the gap apart.
   */
  lemma PacingBound(p: Pace, start: real, events: seq<Event>)
    requires Legal(p) && forall i | 0 <= i < |events| :: Forward(events[i])
    ensures var c := Run(p, start, events);
            && (p.rps > 0.0 ==> c.cur as real <= p.rps * (c.now - start) + 1.0)
            && (forall i | 0 <= i < |c.sends| - 1 :: c.sends[i + 1] - c.sends[i] >= Gap(p))
  {
    hide Run;
    RunKeeps(p, start, events);
  }
}
