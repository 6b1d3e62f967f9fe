/**
 The objects behind the poll protocol: services with their states, the clients
 that are such services and own a socket, and the map, lock and manager they
 share. What each method does when it is not interrupted is proved to be a path
 of the steps of `PollLock`.
 */
module Services {
  import opened Text
  import opened PollLock

  // -------------------------------------------------------------------- services

  /** What a start or stop procedure comes to: nothing, or the text of an exception. */
  type Ending = Option<string>

  function Failures(outcomes: seq<Ending>): seq<string> {
    if outcomes == [] then []
    else
      var last := outcomes[|outcomes| - 1];
      Failures(outcomes[..|outcomes| - 1]) + if last.Some? then [last.value] else []
  }

  /** The state a row of stop procedures leaves. */
  function LifeAfter(before: Life, outcomes: seq<Ending>): Life {
    if outcomes == [] then before
    else if outcomes[|outcomes| - 1].None? then Life.Stopped
    else Life.Error
  }

  predicate SomeFailed(outcomes: seq<Ending>) {
    exists i | 0 <= i < |outcomes| :: outcomes[i].Some?
  }

  lemma {:induction false} FailuresIff(outcomes: seq<Ending>)
    ensures Failures(outcomes) != [] <==> SomeFailed(outcomes)
  {
    if outcomes == [] {
    } else {
      var n := |outcomes| - 1;
      FailuresIff(outcomes[..n]);
      if SomeFailed(outcomes[..n]) {
        var i :| 0 <= i < n && outcomes[..n][i].Some?;
        assert outcomes[i].Some?;
      }
      if SomeFailed(outcomes) && outcomes[n].None? {
        var i :| 0 <= i < |outcomes| && outcomes[i].Some?;
        assert outcomes[..n][i].Some?;
      }
    }
  }

  lemma OneOutcome(before: Life, outcome: Ending)
    ensures Failures([outcome]) == if outcome.Some? then [outcome.value] else []
    ensures LifeAfter(before, [outcome]) == if outcome.Some? then Life.Error else Life.Stopped
  {
    assert [outcome][..0] == [];
  }

  class Stateful {
    var state: Life
    var exceptions: seq<string>

    constructor ()
      ensures state == Life.Stopped && exceptions == []
    {
      state, exceptions := Life.Stopped, [];
    }

    method AppendException(exception: string)
      modifies this
      ensures state == Life.Error && exceptions == old(exceptions) + [exception]
    {
      exceptions := exceptions + [exception];
      state := Life.Error;
    }

    /**
     `force_stop`: every procedure is carried out and every exception kept in
     order. A failure was noted and the service is still not in error exactly
     when some procedure failed and the last one did not.
     */
    method ForceStop(procedures: seq<Ending>)
      modifies this
      ensures exceptions == old(exceptions) + Failures(procedures)
      ensures state == LifeAfter(old(state), procedures)
      ensures old(state) != Life.Error ==>
                (exceptions != old(exceptions) && state != Life.Error
                 <==> SomeFailed(procedures) && procedures[|procedures| - 1].None?)
    {
      for i := 0 to |procedures|
        invariant exceptions == old(exceptions) + Failures(procedures[..i])
        invariant state == LifeAfter(old(state), procedures[..i])
      {
        assert procedures[..i + 1][..i] == procedures[..i];
        if procedures[i].None? {
          state := Life.Stopped;
        } else {
          AppendException(procedures[i].value);
        }
      }
      assert procedures[..|procedures|] == procedures;
      FailuresIff(procedures);
    }
  }

  // --------------------------------------------------------------------- clients

  /** A client: a service with a socket. `pc` is where its own thread is. */
  class Deproxy {
    const id: Obj
    var state: Life
    var exceptions: seq<string>
    var fileno: Option<Fd>
    var sock: Option<Fd>
    var connected: bool
    var connecting: bool
    var accepting: bool
    ghost var pc: Pc

    constructor (id: Obj)
      ensures this.id == id && AsClient() == Client(Life.Stopped, Idle, None, None)
    {
      this.id := id;
      state, exceptions, fileno, sock := Life.Stopped, [], None, None;
      connected, connecting, accepting, pc := false, false, false, Idle;
    }

    ghost function AsClient(): Client
      reads `state, `pc, `fileno, `sock
    {
      Client(state, pc, fileno, sock)
    }
  }

  /** Where an exception is raised in `run_start`, if one is. */
  datatype StartFault = StartsWell | BeforeSocket | InSocket | Connecting

  /** Where an exception is raised in `__stop`, if one is. */
  datatype StopFault = StopsWell | BeforeClosing | Closing | ClearingStats

  /** The way of a client's thread through `start`. */
  function StartPath(c: Obj, fd: Fd, fault: StartFault): seq<Event> {
    [Begin(c, Start, false), Acquire(c)] + LockedStart(c, fd, fault) + [Release(c), Settle(c)]
  }

  function LockedStart(c: Obj, fd: Fd, fault: StartFault): seq<Event> {
    match fault
    case StartsWell => [MakeSocket(c, fd), Register(c), Connected(c)]
    case BeforeSocket => [RaiseIn(c)]
    case InSocket => [MakeSocket(c, fd), RaiseIn(c)]
    case Connecting => [MakeSocket(c, fd), Register(c), RaiseIn(c)]
  }

  /** The way through `stop` and `force_stop`. */
  function StopPath(c: Obj, force: bool, fault: StopFault): seq<Event> {
    [Begin(c, Stop, force), Acquire(c)] + LockedStop(c, fault) + [Release(c), Settle(c)]
  }

  function LockedStop(c: Obj, fault: StopFault): seq<Event> {
    match fault
    case StopsWell => [Unregister(c), CloseSocket(c), ClearStats(c)]
    case BeforeClosing => [RaiseIn(c)]
    case Closing => [Unregister(c), RaiseIn(c)]
    case ClearingStats => [Unregister(c), CloseSocket(c), RaiseIn(c)]
  }

  /** The way through `set_rst_tcp_to_closing_connection`: without an open socket it ends with the lock held. */
  function RstPath(c: Obj, hasSocket: bool): seq<Event> {
    [Begin(c, SetRst, false), Acquire(c), SetOption(c)] + if hasSocket then [Release(c), Settle(c)] else []
  }

  function Dispatches(handled: nat -> Handled, n: nat): seq<Event> {
    if n == 0 then [] else Dispatches(handled, n - 1) + [Dispatch(handled(n - 1))]
  }

  /** The way through `_poll`: n events handed out, the last of them to a handler that raises if one does. */
  function PollPath(ready: seq<Fd>, handled: nat -> Handled, n: nat, raised: bool): seq<Event> {
    [Snapshot(ready)] + Dispatches(handled, n) + if raised then [] else [Dispatch(Nothing)]
  }

  /** One turn of the poll thread: the lock is released in any case, and the thread reports its death. */
  function TurnPath(ready: seq<Fd>, handled: nat -> Handled, n: nat, raised: bool): seq<Event> {
    [PollAcquire] + PollPath(ready, handled, n, raised) + [PollRelease] + if raised then [Report] else []
  }

  /** All the events are handed out, unless the handler of the last one that is raises. */
  predicate EndsAt(count: nat, handled: nat -> Handled, n: nat, raised: bool) {
    if raised then 0 < n <= count && Raises(handled(n - 1)) else n == count
  }

  function Below(n: nat): (r: set<Obj>)
    ensures forall c: Obj :: c in r <==> c < n
  {
    if n == 0 then {} else Below(n - 1) + {n - 1}
  }

  /** A poll path grows by one event handed out, or ends. */
  lemma PollPathGrows(t: seq<Event>, ready: seq<Fd>, handled: nat -> Handled, n: nat)
    ensures t + [Snapshot(ready)] == t + PollPath(ready, handled, 0, true)
    ensures t + PollPath(ready, handled, n, true) + [Dispatch(handled(n))]
         == t + PollPath(ready, handled, n + 1, true)
    ensures t + PollPath(ready, handled, n, true) + [Dispatch(Nothing)] == t + PollPath(ready, handled, n, false)
  {
  }

  /** Two steps, a path and two steps. */
  lemma Assemble(t: seq<Event>, a: Event, b: Event, path: seq<Event>, c: Event, d: Event)
    ensures t + [a] + [b] + path + [c] + [d] == t + ([a, b] + path + [c, d])
  {
  }

  /**
   The manager and what the threads share; `open` is the process's table of
   descriptors. `trace` lists the steps taken: the objects are always in the
   state that the protocol reaches by them.
   */
  class Harness {
    const clients: seq<Deproxy>
    const servers: seq<Stateful>
    var state: Life
    var exceptions: seq<string>
    var socketMap: map<Fd, Deproxy>
    var open: set<Fd>
    var lock: Option<Owner>
    ghost var poller: Poller
    ghost var leaked: bool
    ghost var log: seq<Delivery>
    ghost var trace: seq<Event>

    ghost predicate Shaped()
      reads `socketMap
    {
      && (forall i | 0 <= i < |clients| :: clients[i].id == i)
      && (forall fd | fd in socketMap :: socketMap[fd] in clients)
    }

    ghost function Ids(): set<Obj> {
      Below(|clients|)
    }

    ghost function Clients(): map<Obj, Client>
      reads clients`state, clients`pc, clients`fileno, clients`sock
    {
      map c: Obj | c < |clients| :: clients[c].AsClient()
    }

    ghost function Registry(): map<Fd, Obj>
      reads `socketMap
    {
      map fd | fd in socketMap :: socketMap[fd].id
    }

    /** The state of the protocol these objects are in. */
    ghost function View(): State
      reads this, clients
    {
      State(Clients(), Registry(), open, lock, poller, leaked, log)
    }

    /** What is seen of a client. */
    lemma SeenAt(c: Obj)
      requires c < |clients|
      ensures c in View().clients && View().clients[c] == clients[c].AsClient()
    {
    }

    /** The object found under a descriptor is one of the clients. */
    lemma FoundAt(fd: Fd)
      requires Shaped()
      ensures fd in View().socketMap <==> fd in socketMap
      ensures fd in socketMap ==>
                && View().socketMap[fd] == socketMap[fd].id < |clients| && clients[socketMap[fd].id] == socketMap[fd]
    {
    }

    /** One client has changed and no other, and what is shared as it may be by a step of its thread. */
    twostate lemma Changed(c: Obj)
      requires c < |clients| && Shaped()
      requires forall o | o in clients && o != clients[c] :: o.AsClient() == old(o.AsClient())
      requires socketMap == old(socketMap) && poller == old(poller) && log == old(log)
      ensures View() == With(old(View()), c, clients[c].AsClient()).(open := open, lock := lock, leaked := leaked)
    {
      forall i | 0 <= i < |clients| && i != c ensures clients[i].AsClient() == old(clients[i].AsClient()) {
        assert clients[i] in clients && clients[i] != clients[c];
      }
      assert Clients() == old(Clients())[c := clients[c].AsClient()];
    }

    ghost predicate Valid()
      reads this, clients
    {
      Shaped() && View() == Run(Ids(), trace)
    }

    /** What a step of a client's thread does to the state seen, by what it does to the client and the lock. */
    lemma ControlSeen(c: Obj, e: Event)
      requires Valid() && c < |clients| && IsClientEvent(e) && e.c == c && !IsSocketEvent(e)
      ensures var k := Controlled(Control(clients[c].AsClient(), lock, leaked), e, c);
              Step(Run(Ids(), trace), e)
              == With(View(), c, k.client).(open := open, lock := k.lock, leaked := k.leaked)
    {
      hide Run, Step, Controlled, Clients, Registry, Shaped;
      SeenAt(c);
      ControlStepIs(View(), e);
    }

    lemma SocketSeen(c: Obj, fd: Fd)
      requires Valid() && c < |clients|
      ensures var s := Run(Ids(), trace);
              && c in s.clients && s.clients[c] == clients[c].AsClient()
              && s.open == open && s.lock == lock && s.leaked == leaked
              && Step(s, MakeSocket(c, fd)) == MakeSocketStep(s, c, fd) && Step(s, Register(c)) == RegisterStep(s, c)
              && Step(s, Unregister(c)) == UnregisterStep(s, c) && Step(s, CloseSocket(c)) == CloseStep(s, c)
    {
      hide Run, Step, Clients, Registry, Shaped, MakeSocketStep, RegisterStep, UnregisterStep, CloseStep;
      SeenAt(c);
      SocketStepIs(View(), c, fd);
    }

    constructor (clients: seq<Deproxy>, servers: seq<Stateful>)
      requires forall i | 0 <= i < |clients| ::
                 clients[i].id == i && clients[i].AsClient() == Client(Life.Stopped, Idle, None, None)
      ensures Valid() && this.clients == clients && this.servers == servers && trace == []
    {
      this.clients, this.servers, state, exceptions := clients, servers, Life.Stopped, [];
      socketMap, open, lock, poller, leaked, log, trace := map[], {}, None, Between, false, [], [];
    }

    function At(c: Obj): Deproxy
      requires c < |clients|
    {
      clients[c]
    }

    /** The objects have made the step e. */
    ghost method Record(e: Event)
      requires Shaped() && View() == Step(Run(Ids(), trace), e)
      modifies `trace
      ensures Valid() && trace == old(trace) + [e] && View() == old(View())
    {
      hide Run, Step, Ids, Clients, Registry, Shaped;
      RunThen(Ids(), trace, e);
      trace := trace + [e];
    }

    // ------------------------------------------------------------- single steps

    method AcquireLock(c: Obj)
      requires Valid() && c < |clients| && clients[c].pc.Waiting? && lock == None
      modifies `lock, `trace, At(c)`pc
      ensures Valid() && trace == old(trace) + [Acquire(c)]
      ensures clients[c].pc == HeldAfter(old(clients[c].pc).op) && lock == Some(ByClient(c))
    {
      hide Run, View, Shaped, Step, With;
      ControlSeen(c, Acquire(c));
      lock := Some(ByClient(c));
      clients[c].pc := HeldAfter(clients[c].pc.op);
      Changed(c);
      Record(Acquire(c));
    }

    method ReleaseLock(c: Obj)
      requires Valid() && c < |clients| && clients[c].pc.Leaving?
      modifies `lock, `trace, At(c)`pc
      ensures Valid() && trace == old(trace) + [Release(c)] && lock == None
      ensures clients[c].pc == Left(old(clients[c].pc).op, old(clients[c].pc).ok)
    {
      hide Run, View, Shaped, Step, With;
      ControlSeen(c, Release(c));
      lock := None;
      clients[c].pc := Left(clients[c].pc.op, clients[c].pc.ok);
      Changed(c);
      Record(Release(c));
    }

    /** An exception leaves the locked section. */
    ghost method Raise(c: Obj)
      requires Valid() && c < |clients|
      requires Holds(clients[c].pc) && !clients[c].pc.Leaving? && !clients[c].pc.RstHeld?
      modifies `trace, At(c)`pc
      ensures Valid() && trace == old(trace) + [RaiseIn(c)]
      ensures clients[c].pc == Leaving(if old(StartingAt(clients[c].pc)) then Start else Stop, false)
    {
      hide Run, View, Shaped, Step, With;
      ControlSeen(c, RaiseIn(c));
      clients[c].pc := Leaving(if StartingAt(clients[c].pc) then Start else Stop, false);
      Changed(c);
      Record(RaiseIn(c));
    }

    /** `socket.socket` gives a descriptor that is not in use. */
    method OpenSocket(c: Obj, fd: Fd)
      requires Valid() && c < |clients| && clients[c].pc == StartHeld && fd !in open
      modifies `open, `trace, At(c)`sock, At(c)`pc
      ensures Valid() && trace == old(trace) + [MakeSocket(c, fd)]
      ensures clients[c].pc == SocketMade && clients[c].sock == Some(fd)
    {
      hide Run, View, Shaped, Step;
      SocketSeen(c, fd);
      open := open + {fd};
      clients[c].sock := Some(fd);
      clients[c].pc := SocketMade;
      Changed(c);
      Record(MakeSocket(c, fd));
    }

    /** `_set_socket` and `_add_channel` */
    method SetSocket(c: Obj)
      requires Valid() && c < |clients| && clients[c].pc == SocketMade && clients[c].sock.Some?
      modifies `socketMap, `trace, At(c)`fileno, At(c)`pc
      ensures Valid() && trace == old(trace) + [Register(c)] && clients[c].pc == Registered
    {
      hide Run, View, Shaped, Step;
      SocketSeen(c, 0);
      clients[c].fileno := clients[c].sock;
      Changed(c);
      AddChannel(c, clients[c].sock.value);
      MoveTo(c, Registered);
      Record(Register(c));
    }

    method AddChannel(c: Obj, fd: Fd)
      requires Shaped() && c < |clients|
      modifies `socketMap
      ensures Shaped() && View() == old(View()).(socketMap := old(View()).socketMap[fd := c])
    {
      hide Clients;
      socketMap := socketMap[fd := clients[c]];
    }

    /** `_connect` without an exception */
    method Connect(c: Obj)
      requires Valid() && c < |clients| && clients[c].pc == Registered
      modifies `trace, At(c)`connected, At(c)`connecting, At(c)`pc
      ensures Valid() && trace == old(trace) + [Connected(c)]
      ensures clients[c].pc == Leaving(Start, true) && clients[c].connecting && !clients[c].connected
    {
      hide Run, View, Shaped, Step, With;
      ControlSeen(c, Connected(c));
      clients[c].connected, clients[c].connecting := false, true;
      clients[c].pc := Leaving(Start, true);
      Changed(c);
      Record(Connected(c));
    }

    /** The beginning of `_handle_close` */
    method ClearFlags(c: Obj)
      requires c < |clients|
      modifies At(c)`connected, At(c)`connecting, At(c)`accepting
      ensures View() == old(View()) && !clients[c].connected && !clients[c].connecting && !clients[c].accepting
    {
      hide Clients, Registry;
      clients[c].connected, clients[c].accepting, clients[c].connecting := false, false, false;
    }

    /** `_del_channel` */
    method DelChannel(c: Obj)
      requires Shaped() && c < |clients|
      modifies `socketMap, At(c)`fileno
      ensures Shaped() && View() == UnregisterObj(old(View()), c)
    {
      hide Clients, Registry, Shaped;
      SeenAt(c);
      RemoveKey(clients[c].fileno);
      label Removed:
      clients[c].fileno := None;
      Changed@Removed(c);
    }

    method RemoveKey(fileno: Option<Fd>)
      requires Shaped()
      modifies `socketMap
      ensures Shaped() && View() == old(View()).(socketMap := PollLock.DelChannel(old(View()).socketMap, fileno))
    {
      hide Clients;
      if fileno.Some? && fileno.value in socketMap {
        socketMap := socketMap - {fileno.value};
      }
    }

    /** The part of `_handle_close` after `_del_channel`. */
    method CloseDescriptor(c: Obj)
      requires Shaped() && c < |clients|
      modifies `open, At(c)`sock
      ensures Shaped() && View() == CloseObj(old(View()), c)
    {
      hide Clients, Registry, Shaped;
      SeenAt(c);
      if clients[c].sock.Some? {
        open := open - {clients[c].sock.value};
      }
      clients[c].sock := None;
      Changed(c);
    }

    ghost method MoveTo(c: Obj, pc: Pc)
      requires Shaped() && c < |clients|
      modifies At(c)`pc
      ensures Shaped() && View() == Move(old(View()), c, pc) && clients[c].pc == pc
    {
      hide Clients, Registry, Shaped;
      SeenAt(c);
      clients[c].pc := pc;
      Changed(c);
    }

    /** The check of the state at the start of an operation has passed. */
    method BeginOp(c: Obj, op: Op, force: bool)
      requires Valid() && c < |clients| && clients[c].pc == Idle
      requires MayBegin(clients[c].AsClient(), op, force)
      modifies `trace, At(c)`pc, At(c)`state
      ensures Valid() && trace == old(trace) + [Begin(c, op, force)] && clients[c].pc == Waiting(op)
    {
      hide Run, View, Shaped, Step, With;
      ControlSeen(c, Begin(c, op, force));
      if op == Start {
        clients[c].state := BeginStart;
      }
      clients[c].pc := Waiting(op);
      Changed(c);
      Record(Begin(c, op, force));
    }

    /** The operation is over: the state that `start` or `force_stop` sets, and a failed stop noted. */
    method SettleOp(c: Obj, op: Op, ok: bool, exception: string)
      requires Valid() && c < |clients| && clients[c].pc == Left(op, ok)
      modifies `trace, At(c)`pc, At(c)`state, At(c)`exceptions
      ensures Valid() && trace == old(trace) + [Settle(c)] && clients[c].pc == Idle
      ensures clients[c].exceptions == old(clients[c].exceptions) + if op == Stop && !ok then [exception] else []
      ensures op == Stop ==> clients[c].state == if ok then Life.Stopped else Life.Error
    {
      hide Run, View, Shaped, Step, With;
      ControlSeen(c, Settle(c));
      if op == Start && ok {
        clients[c].state := Started;
      } else if op == Stop && ok {
        clients[c].state := Life.Stopped;
      } else if op == Stop {
        clients[c].exceptions := clients[c].exceptions + [exception];
        clients[c].state := Life.Error;
      }
      clients[c].pc := Idle;
      Changed(c);
      Record(Settle(c));
    }

    // ------------------------------------------------- whole methods of a client

    /** `start` and `run_start`: acquire, try, release in any case. */
    method StartClient(c: Obj, fd: Fd, fault: StartFault) returns (raised: bool)
      requires Valid() && c < |clients| && clients[c].pc == Idle && lock == None && fd !in open
      modifies `lock, `open, `socketMap, `trace, At(c)
      ensures Valid() && clients[c].pc == Idle && lock == None
      ensures trace == old(trace) + if old(clients[c].state) == Life.Stopped then StartPath(c, fd, fault) else []
      ensures raised == (old(clients[c].state) == Life.Stopped && fault != StartsWell)
    {
      hide Valid, LockedStart;
      if clients[c].state != Life.Stopped {
        return false;
      }
      BeginOp(c, Start, false);
      AcquireLock(c);
      TryStart(c, fd, fault);
      raised := fault != StartsWell;
      ReleaseLock(c);
      SettleOp(c, Start, !raised, "");
      Assemble(old(trace), Begin(c, Start, false), Acquire(c), LockedStart(c, fd, fault), Release(c), Settle(c));
    }

    /** The `try` of `run_start` */
    method TryStart(c: Obj, fd: Fd, fault: StartFault)
      requires Valid() && c < |clients| && clients[c].pc == StartHeld && fd !in open
      modifies `open, `socketMap, `trace, At(c)
      ensures Valid() && clients[c].pc == Leaving(Start, fault == StartsWell)
      ensures trace == old(trace) + LockedStart(c, fd, fault)
    {
      hide Valid;
      if fault != BeforeSocket {
        OpenSocket(c, fd);
        if fault != InSocket {
          SetSocket(c);
          if fault != Connecting {
            Connect(c);
          }
        }
      }
      if fault != StartsWell {
        Raise(c);
      }
    }

    /** `_handle_close` on the client's own thread, up to `_del_channel`. */
    method UnregisterOwn(c: Obj)
      requires Valid() && c < |clients| && clients[c].pc == StopHeld
      modifies `socketMap, `trace, At(c)`fileno, At(c)`connected, At(c)`connecting, At(c)`accepting, At(c)`pc
      ensures Valid() && clients[c].pc == Unregistered && trace == old(trace) + [Unregister(c)]
      ensures !clients[c].connected && !clients[c].connecting && !clients[c].accepting
    {
      hide Run, View, Shaped, Step;
      SocketSeen(c, 0);
      ClearFlags(c);
      DelChannel(c);
      MoveTo(c, Unregistered);
      Record(Unregister(c));
    }

    /** The rest of it. */
    method CloseOwn(c: Obj)
      requires Valid() && c < |clients| && clients[c].pc == Unregistered
      modifies `open, `trace, At(c)`sock, At(c)`pc
      ensures Valid() && clients[c].pc == SocketClosed && trace == old(trace) + [CloseSocket(c)]
    {
      hide Run, View, Shaped, Step;
      SocketSeen(c, 0);
      CloseDescriptor(c);
      MoveTo(c, SocketClosed);
      Record(CloseSocket(c));
    }

    /** `stop`, or `force_stop` with `force`, and `__stop`: acquire, try, release in any case. */
    method StopClient(c: Obj, force: bool, fault: StopFault, exception: string)
      requires Valid() && c < |clients| && clients[c].pc == Idle && lock == None
      modifies `lock, `open, `socketMap, `trace, At(c)
      ensures Valid() && clients[c].pc == Idle && lock == None
      ensures var stops := force || old(clients[c].state) == Started || old(clients[c].state) == BeginStart;
              && trace == old(trace) + (if stops then StopPath(c, force, fault) else [])
              && (stops ==>
                    var outcomes := [if fault == StopsWell then None else Some(exception)];
                    && clients[c].exceptions == old(clients[c].exceptions) + Failures(outcomes)
                    && clients[c].state == LifeAfter(old(clients[c].state), outcomes))
    {
      hide Valid, Failures, LifeAfter, LockedStop;
      OneOutcome(clients[c].state, if fault == StopsWell then None else Some(exception));
      if !force && clients[c].state != Started && clients[c].state != BeginStart {
        return;
      }
      BeginOp(c, Stop, force);
      AcquireLock(c);
      TryStop(c, fault);
      ReleaseLock(c);
      SettleOp(c, Stop, fault == StopsWell, exception);
      Assemble(old(trace), Begin(c, Stop, force), Acquire(c), LockedStop(c, fault), Release(c), Settle(c));
    }

    /** The `try` of `__stop` */
    method TryStop(c: Obj, fault: StopFault)
      requires Valid() && c < |clients| && clients[c].pc == StopHeld
      modifies `open, `socketMap, `trace, At(c)
      ensures Valid() && clients[c].pc == Leaving(Stop, fault == StopsWell)
      ensures trace == old(trace) + LockedStop(c, fault)
      ensures clients[c].exceptions == old(clients[c].exceptions)
    {
      hide Valid;
      if fault != BeforeClosing {
        UnregisterOwn(c);
        if fault != Closing {
          CloseOwn(c);
        }
      }
      if fault == StopsWell {
        StatsCleared(c);
      } else {
        Raise(c);
      }
    }

    ghost method StatsCleared(c: Obj)
      requires Valid() && c < |clients| && clients[c].pc == SocketClosed
      modifies `trace, At(c)`pc
      ensures Valid() && trace == old(trace) + [ClearStats(c)] && clients[c].pc == Leaving(Stop, true)
    {
      hide Run, View, Shaped, Step, With;
      ControlSeen(c, ClearStats(c));
      clients[c].pc := Leaving(Stop, true);
      Changed(c);
      Record(ClearStats(c));
    }

    /** `setsockopt` */
    method SetLinger(c: Obj) returns (raised: bool)
      requires Valid() && c < |clients| && clients[c].pc == RstHeld
      modifies `leaked, `trace, At(c)`pc
      ensures Valid() && trace == old(trace) + [SetOption(c)] && raised == clients[c].sock.None?
      ensures clients[c].pc == if raised then Idle else Leaving(SetRst, true)
    {
      hide Run, View, Shaped, Step, With;
      ControlSeen(c, SetOption(c));
      raised := clients[c].sock.None?;
      if raised {
        leaked := true;
      }
      clients[c].pc := if raised then Idle else Leaving(SetRst, true);
      Changed(c);
      Record(SetOption(c));
    }

    /** `set_rst_tcp_to_closing_connection`; there is no `finally`. */
    method SetRstOption(c: Obj) returns (raised: bool)
      requires Valid() && c < |clients| && clients[c].pc == Idle && lock == None
      modifies `lock, `leaked, `trace, At(c)
      ensures Valid() && clients[c].pc == Idle && raised == old(clients[c].sock).None?
      ensures trace == old(trace) + RstPath(c, !raised)
      ensures lock == if raised then Some(ByClient(c)) else None
    {
      hide Valid;
      BeginOp(c, SetRst, false);
      AcquireLock(c);
      raised := SetLinger(c);
      if !raised {
        ReleaseLock(c);
        SettleOp(c, SetRst, true, "");
      }
    }

    // --------------------------------------------------------- the poll thread

    /** `_readwrite` of an object, whose handlers do what `handled` says. */
    method ReadWrite(c: Obj, handled: Handled) returns (raised: bool)
      requires Shaped() && c < |clients|
      modifies `socketMap, `open, `poller, At(c)
      ensures Shaped() && View() == Handle(old(View()), c, handled)
      ensures raised == Raises(handled)
    {
      hide View, Shaped, UnregisterObj, CloseObj;
      raised := Raises(handled);
      if handled != Nothing && handled != Raised {
        ClearFlags(c);
        DelChannel(c);
        if handled != UnregisteredThenRaised {
          CloseDescriptor(c);
        }
      }
      if raised {
        PollerGoes(Dying);
      }
    }

    /** The events still to be handed out, in the order polled. */
    ghost predicate DispatchingAt(snapshot: map<Fd, Obj>, todo: seq<Fd>)
      reads this, clients
    {
      Valid() && poller == Dispatching(snapshot, todo) && forall fd | fd in todo :: fd in snapshot
    }

    /** The event of one descriptor goes to the object found under it now, or to nobody. */
    method DispatchOne(ghost snapshot: map<Fd, Obj>, todo: seq<Fd>, handled: Handled) returns (raised: bool)
      requires todo != [] && DispatchingAt(snapshot, todo)
      modifies `socketMap, `open, `poller, `log, `trace, clients
      ensures Valid() && trace == old(trace) + [Dispatch(handled)]
      ensures raised == (todo[0] in old(socketMap) && Raises(handled)) && (raised ==> poller == Dying)
      ensures !raised ==> DispatchingAt(snapshot, todo[1..])
    {
      hide Run, Clients, Registry, Shaped, Handle, Step;
      ghost var before := View();
      var fd := todo[0];
      DispatchStep(before, handled);
      poller := Dispatching(snapshot, todo[1..]);
      raised := false;
      FoundAt(fd);
      if fd in socketMap {
        var c := socketMap[fd].id;
        SeenAt(c);
        log := log + [Delivery(fd, c, snapshot[fd])];
        ghost var logged := View();
        assert before.socketMap[fd] == c && c in before.clients;
        assert logged == before.(poller := poller, log := log);
        raised := ReadWrite(c, handled);
        HandlePoller(logged, c, handled);
      } else {
        assert View() == before.(poller := poller);
      }
      Record(Dispatch(handled));
    }

    /** The descriptors that are reported, among those registered. */
    method TakeSnapshot(ready: seq<Fd>) returns (todo: seq<Fd>, ghost snapshot: map<Fd, Obj>)
      requires Valid() && poller == Polling
      modifies `poller, `trace
      ensures DispatchingAt(snapshot, todo) && trace == old(trace) + [Snapshot(ready)]
      ensures todo == SubSeq(ready, socketMap.Keys)
    {
      hide Run, Clients;
      todo := SubSeq(ready, socketMap.Keys);
      snapshot := View().socketMap;
      assert snapshot.Keys == socketMap.Keys;
      poller := Dispatching(snapshot, todo);
      Record(Snapshot(ready));
    }

    /** `polling_lock.acquire()` in the poll thread */
    method TakeLock()
      requires Valid() && poller == Between && lock == None
      modifies `poller, `lock, `trace
      ensures Valid() && trace == old(trace) + [PollAcquire] && poller == Polling && lock == Some(ByPoller)
    {
      hide Run, Clients, Registry, Shaped;
      poller, lock := Polling, Some(ByPoller);
      Record(PollAcquire);
    }

    /** `polling_lock.release()`, after the poll or in the handler of its exception */
    method DropLock(raised: bool)
      requires Valid() && poller == if raised then Dying else Finishing
      modifies `poller, `lock, `trace
      ensures Valid() && trace == old(trace) + [PollRelease] && lock == None
      ensures poller == if raised then Reporting else Between
    {
      hide Run, Clients, Registry, Shaped;
      poller, lock := if raised then Reporting else Between, None;
      Record(PollRelease);
    }

    /** `_poll`: the descriptors in `ready` are reported, and the i-th handler does what `handled(i)` says. */
    method Poll(ready: seq<Fd>, handled: nat -> Handled) returns (raised: bool, ghost n: nat)
      requires Valid() && poller == Polling
      modifies `socketMap, `open, `poller, `log, `trace, clients
      ensures Valid() && lock == old(lock) && poller == if raised then Dying else Finishing
      ensures trace == old(trace) + PollPath(ready, handled, n, raised)
      ensures EndsAt(|SubSeq(ready, old(socketMap).Keys)|, handled, n, raised)
    {
      hide Valid, DispatchingAt, PollPath, SubSeq;
      ghost var snapshot;
      var todo;
      todo, snapshot := TakeSnapshot(ready);
      PollPathGrows(old(trace), ready, handled, |todo|);
      for i := 0 to |todo|
        invariant DispatchingAt(snapshot, todo[i..])
        invariant trace == old(trace) + PollPath(ready, handled, i, true)
      {
        assert todo[i..][1..] == todo[i + 1..];
        PollPathGrows(old(trace), ready, handled, i);
        raised := DispatchOne(snapshot, todo[i..], handled(i));
        n := i + 1;
        if raised {
          return;
        }
      }
      n := |todo|;
      FinishDispatch(snapshot);
      raised := false;
    }

    ghost method FinishDispatch(snapshot: map<Fd, Obj>)
      requires DispatchingAt(snapshot, [])
      modifies `poller, `trace
      ensures Valid() && trace == old(trace) + [Dispatch(Nothing)] && poller == Finishing
    {
      hide Run, Clients, Registry;
      poller := Finishing;
      Record(Dispatch(Nothing));
    }

    /** The state setter: an error is passed on to every client and server, any other state to no one. */
    method SetState(newState: Life)
      requires Shaped()
      modifies `state, clients`state, servers`state
      ensures Shaped() && state == newState
      ensures View()
           == if newState == Life.Error then old(View()).(clients := Failed(old(View().clients))) else old(View())
      ensures forall i | 0 <= i < |clients| :: newState == Life.Error ==> clients[i].state == newState
      ensures forall s | s in servers :: s.state == if newState == Life.Error then newState else old(s.state)
    {
      hide Clients, Registry, Shaped;
      state := newState;
      if newState != Life.Error {
        return;
      }
      FailClients();
      for i := 0 to |servers|
        invariant forall j | 0 <= j < i :: servers[j].state == newState
        modifies servers`state
      {
        servers[i].state := newState;
      }
    }

    method FailClients()
      modifies clients`state
      ensures Clients() == Failed(old(Clients())) && forall i | 0 <= i < |clients| :: clients[i].state == Life.Error
    {
      for i := 0 to |clients|
        invariant forall j | 0 <= j < i :: clients[j].state == Life.Error
      {
        clients[i].state := Life.Error;
      }
    }

    ghost method PollerGoes(next: Poller)
      requires Shaped()
      modifies `poller
      ensures Shaped() && View() == old(View()).(poller := next) && poller == next
    {
      poller := next;
    }

    /** The thread has died: the error goes to the manager and from it to everyone. */
    method ReportDeath(exception: string)
      requires Valid() && poller == Reporting
      modifies `state, `exceptions, `poller, `trace, clients`state, servers`state
      ensures Valid() && poller == Dead && lock == old(lock) && trace == old(trace) + [Report]
      ensures state == Life.Error && exceptions == old(exceptions) + [exception]
      ensures forall i | 0 <= i < |clients| :: clients[i].state == Life.Error
      ensures forall s | s in servers :: s.state == Life.Error
    {
      hide Run, Ids, Step, Failed;
      ReportStep(View());
      exceptions := exceptions + [exception];
      assert View() == old(View());
      SetState(Life.Error);
      PollerGoes(Dead);
      Record(Report);
    }

    /** One turn of the poll thread; if a handler raises, the lock is released all the same and the thread dies. */
    method PollTurn(ready: seq<Fd>, handled: nat -> Handled, exception: string)
      returns (alive: bool, ghost n: nat)
      requires Valid() && poller == Between && lock == None
      modifies this, clients, servers
      ensures Valid() && lock == None && poller == if alive then Between else Dead
      ensures trace == old(trace) + TurnPath(ready, handled, n, !alive)
      ensures EndsAt(|SubSeq(ready, old(socketMap).Keys)|, handled, n, !alive)
      ensures !alive ==>
                && state == Life.Error && exceptions == old(exceptions) + [exception]
                && (forall i | 0 <= i < |clients| :: clients[i].state == Life.Error)
                && (forall s | s in servers :: s.state == Life.Error)
    {
      hide Valid;
      TakeLock();
      var raised;
      raised, n := Poll(ready, handled);
      DropLock(raised);
      alive := !raised;
      if raised {
        ReportDeath(exception);
      }
    }
  }

  /**
   What is proved of the protocol holds of the objects: registered keys are open
   descriptors, each its object's `_fileno`, and no object is registered twice.
   */
  lemma ObjectsSafe(h: Harness)
    requires h.Valid()
    ensures forall fd | fd in h.socketMap :: fd in h.open && h.socketMap[fd].fileno == Some(fd)
    ensures forall fd, fd' | fd in h.socketMap && fd' in h.socketMap ::
              h.socketMap[fd] == h.socketMap[fd'] ==> fd == fd'
    ensures forall i | 0 <= i < |h.log| :: h.log[i].target == h.log[i].snapshotted
  {
    hide Run, Harness.Clients, Harness.Registry, Harness.Shaped;
    var s := h.View();
    assert s == Run(h.Ids(), h.trace);
    RegistrySafety(h.Ids(), h.trace);
    forall fd | fd in h.socketMap ensures fd in h.open && h.socketMap[fd].fileno == Some(fd) {
      h.FoundAt(fd);
      h.SeenAt(h.socketMap[fd].id);
      assert fd in s.socketMap && s.clients[s.socketMap[fd]].fileno == Some(fd);
    }
    forall fd, fd' | fd in h.socketMap && fd' in h.socketMap && h.socketMap[fd] == h.socketMap[fd']
      ensures fd == fd'
    {
      h.FoundAt(fd);
      h.FoundAt(fd');
      assert s.socketMap[fd] == s.socketMap[fd'];
    }
  }
}
