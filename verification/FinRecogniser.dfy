/**
 The recogniser of a regular TCP close in a packet capture: FIN, ACK, FIN, ACK,
 the middle two possibly in one packet.
 */
module FinRecogniser {

  datatype Packet = Packet(
    fin: bool, rst: bool, ack: bool, seqNo: nat, ackNo: nat,
    ipLength: nat, ipHeaderWords: nat, tcpHeaderWords: nat, sport: nat, dport: nat)

  /** `port` is the server's; `nodeSideClose` says that the server closes first. */
  datatype Analyzer = Analyzer(port: nat, nodeSideClose: bool)

  /** `portcmp`: the packet comes from the closing side, or with `invert` from its peer. */
  predicate PortCmp(a: Analyzer, p: Packet, invert: bool) {
    if a.nodeSideClose != invert then p.sport == a.port else p.dport == a.port
  }

  /** The sequence number after the payload of a packet. */
  function AfterPayload(p: Packet): int {
    p.seqNo + p.ipLength - p.ipHeaderWords * 4 - p.tcpHeaderWords * 4
  }

  predicate CloserFin(a: Analyzer, p: Packet) {
    p.fin && PortCmp(a, p, false)
  }

  predicate PeerAck(a: Analyzer, p: Packet, beyond: int) {
    p.ack && PortCmp(a, p, true) && p.ackNo > beyond
  }

  predicate PeerFin(a: Analyzer, p: Packet) {
    p.fin && PortCmp(a, p, true)
  }

  predicate CloserAck(a: Analyzer, p: Packet, beyond: int) {
    p.ack && PortCmp(a, p, false) && p.ackNo > beyond
  }

  /** How many of the four steps have been seen, and the number the next ACK must pass. */
  datatype Progress = Progress(count: nat, lSeq: int)

  /** One packet that is no RST and comes before all four steps are seen. */
  function Advance(a: Analyzer, s: Progress, p: Packet): Progress {
    if s.count == 0 then if CloserFin(a, p) then Progress(1, AfterPayload(p)) else s
    else
      var acked := if s.count == 1 && PeerAck(a, p, s.lSeq) then 2 else s.count;
      if acked == 2 && PeerFin(a, p) then Progress(3, AfterPayload(p))
      else if acked == 3 && CloserAck(a, p, s.lSeq) then Progress(4, s.lSeq)
      else Progress(acked, s.lSeq)
  }

  /** The verdict on the packets from n on. */
  predicate Walk(a: Analyzer, ps: seq<Packet>, n: nat, s: Progress)
    requires n <= |ps|
    decreases |ps| - n
  {
    if n == |ps| then s.count == 4
    else !ps[n].rst && s.count < 4 && Walk(a, ps, n + 1, Advance(a, s, ps[n]))
  }

  /** `check_results` */
  method CheckResults(a: Analyzer, ps: seq<Packet>) returns (ok: bool)
    ensures ok == Walk(a, ps, 0, Progress(0, 0))
  {
    if ps == [] {
      return false;
    }
    var count, lSeq := 0, 0;
    for n := 0 to |ps|
      invariant 0 <= count <= 4
      invariant Walk(a, ps, 0, Progress(0, 0)) == Walk(a, ps, n, Progress(count, lSeq))
    {
      var p := ps[n];
      if p.rst {
        return false;
      }
      if count >= 4 {
        return false;
      }
      if count == 0 && p.fin && PortCmp(a, p, false) {
        lSeq := AfterPayload(p);
        count := count + 1;
        continue;
      }
      if count == 1 && p.ack && PortCmp(a, p, true) {
        if p.ackNo > lSeq {
          count := count + 1;
        }
      }
      if count == 2 && p.fin && PortCmp(a, p, true) {
        lSeq := AfterPayload(p);
        count := count + 1;
        continue;
      }
      if count == 3 && p.ack && PortCmp(a, p, false) {
        if p.ackNo > lSeq {
          count := count + 1;
        }
      }
    }
    ok := count == 4;
  }

  // ---------------------------------------------------------- what it recognises

  predicate NoRst(ps: seq<Packet>, n: nat) {
    forall i | n <= i < |ps| :: !ps[i].rst
  }

  /** The first packet from n on that satisfies a condition, or the number of packets. */
  function First(ps: seq<Packet>, n: nat, c: Packet -> bool): (i: nat)
    requires n <= |ps|
    ensures n <= i <= |ps| && (i < |ps| ==> c(ps[i])) && forall j | n <= j < i :: !c(ps[j])
    decreases |ps| - n
  {
    if n == |ps| || c(ps[n]) then n else First(ps, n + 1, c)
  }

  /** The last step comes with the last packet. */
  predicate EndsWith(a: Analyzer, ps: seq<Packet>, n: nat, lSeq: int)
    requires n <= |ps|
  {
    First(ps, n, p => CloserAck(a, p, lSeq)) + 1 == |ps|
  }

  /** From n on: the peer's FIN, and after it the closer's ACK as last packet. */
  predicate PeerCloses(a: Analyzer, ps: seq<Packet>, n: nat)
    requires n <= |ps|
  {
    var k := First(ps, n, p => PeerFin(a, p));
    k < |ps| && EndsWith(a, ps, k + 1, AfterPayload(ps[k]))
  }

  /** From n on: the peer's ACK, and from that very packet on the peer's FIN. */
  predicate PeerAnswers(a: Analyzer, ps: seq<Packet>, n: nat, lSeq: int)
    requires n <= |ps|
  {
    var j := First(ps, n, p => PeerAck(a, p, lSeq));
    j < |ps| && PeerCloses(a, ps, j)
  }

  predicate Regular(a: Analyzer, ps: seq<Packet>) {
    var i := First(ps, 0, p => CloserFin(a, p));
    i < |ps| && PeerAnswers(a, ps, i + 1, AfterPayload(ps[i]))
  }

  lemma {:induction false} WalkThree(a: Analyzer, ps: seq<Packet>, n: nat, lSeq: int)
    requires n <= |ps|
    ensures Walk(a, ps, n, Progress(3, lSeq)) <==> NoRst(ps, n) && EndsWith(a, ps, n, lSeq)
    decreases |ps| - n
  {
    hide AfterPayload, PortCmp;
    if n == |ps| {
    } else if CloserAck(a, ps[n], lSeq) {
      assert Walk(a, ps, n, Progress(3, lSeq)) <==> !ps[n].rst && Walk(a, ps, n + 1, Progress(4, lSeq));
    } else {
      WalkThree(a, ps, n + 1, lSeq);
    }
  }

  lemma {:induction false} WalkTwo(a: Analyzer, ps: seq<Packet>, n: nat, lSeq: int)
    requires n <= |ps|
    ensures Walk(a, ps, n, Progress(2, lSeq)) <==> NoRst(ps, n) && PeerCloses(a, ps, n)
    decreases |ps| - n
  {
    hide AfterPayload, PortCmp, EndsWith;
    if n == |ps| {
    } else if PeerFin(a, ps[n]) {
      WalkThree(a, ps, n + 1, AfterPayload(ps[n]));
    } else {
      WalkTwo(a, ps, n + 1, lSeq);
    }
  }

  lemma {:induction false} WalkOne(a: Analyzer, ps: seq<Packet>, n: nat, lSeq: int)
    requires n <= |ps|
    ensures Walk(a, ps, n, Progress(1, lSeq)) <==> NoRst(ps, n) && PeerAnswers(a, ps, n, lSeq)
    decreases |ps| - n
  {
    hide AfterPayload, PortCmp, PeerCloses;
    if n == |ps| {
    } else if PeerAck(a, ps[n], lSeq) {
      WalkTwo(a, ps, n, lSeq);
      assert Walk(a, ps, n, Progress(1, lSeq)) == Walk(a, ps, n, Progress(2, lSeq));
    } else {
      WalkOne(a, ps, n + 1, lSeq);
    }
  }

  lemma {:induction false} WalkZero(a: Analyzer, ps: seq<Packet>, n: nat, lSeq: int)
    requires n <= |ps|
    ensures Walk(a, ps, n, Progress(0, lSeq)) <==>
              NoRst(ps, n) &&
              var i := First(ps, n, p => CloserFin(a, p));
              i < |ps| && PeerAnswers(a, ps, i + 1, AfterPayload(ps[i]))
    decreases |ps| - n
  {
    hide AfterPayload, PortCmp, PeerAnswers;
    if n == |ps| {
    } else if CloserFin(a, ps[n]) {
      WalkOne(a, ps, n + 1, AfterPayload(ps[n]));
    } else {
      WalkZero(a, ps, n + 1, lSeq);
    }
  }

  /**
   Exactly what is recognised: no RST anywhere, and the first FIN of the closer,
   the first ACK of the peer beyond it, the peer's first FIN from that packet
   on, and the closer's first ACK beyond that, which is the last packet.
   */
  lemma RecognisedIff(a: Analyzer, ps: seq<Packet>)
    ensures Walk(a, ps, 0, Progress(0, 0)) <==> NoRst(ps, 0) && Regular(a, ps)
  {
    WalkZero(a, ps, 0, 0);
  }

  /** The four steps at four packets, the second and the third perhaps the same, the fourth the last. */
  predicate Closing(a: Analyzer, ps: seq<Packet>, i: nat, j: nat, k: nat, l: nat) {
    && i < j <= k < l && l + 1 == |ps|
    && CloserFin(a, ps[i]) && PeerAck(a, ps[j], AfterPayload(ps[i]))
    && PeerFin(a, ps[k]) && CloserAck(a, ps[l], AfterPayload(ps[k]))
  }

  /** In particular the four steps are there in order. */
  lemma RecognisedSound(a: Analyzer, ps: seq<Packet>)
    requires Walk(a, ps, 0, Progress(0, 0))
    ensures NoRst(ps, 0)
    ensures exists i: nat, j: nat, k: nat, l: nat :: Closing(a, ps, i, j, k, l)
  {
    hide CloserFin, PeerAck, PeerFin, CloserAck, Walk, AfterPayload;
    RecognisedIff(a, ps);
    var i := First(ps, 0, p => CloserFin(a, p));
    var j := First(ps, i + 1, p => PeerAck(a, p, AfterPayload(ps[i])));
    var k := First(ps, j, p => PeerFin(a, p));
    var l := First(ps, k + 1, p => CloserAck(a, p, AfterPayload(ps[k])));
    assert Closing(a, ps, i, j, k, l);
  }
}
